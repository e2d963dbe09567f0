/** The `/api/users` variant defined inline in server/src/index.test.ts. It differs
    from the production handler: the search is split into space-separated terms
    that must all occur in "first last", the nationality filter is a single
    equality, the default limit is 10, and the response carries facet counts
    (per hobby and per nationality) over the filtered users, built by a reduce
    that updates two insertion-ordered maps in place. */
module FacetQuery {
  import opened Seqs
  import opened Text
  import opened UserModel
  import UserQuery

  const DefaultPage: int := 1
  const DefaultLimit: int := 10

  /** The JSON-decoded `filter` parameter: `{ nationality?, hobbies? }`. */
  datatype FilterSpec = FilterSpec(nationality: Option<string>, hobbies: Option<seq<string>>)

  datatype TestQuery = TestQuery(
    page: Option<int>,
    limit: Option<int>,
    search: Option<string>,
    filter: Option<FilterSpec>)

  /** One `{ label, count }` entry; a sequence of them in insertion order stands
      for a JavaScript `Map<string, number>`. */
  datatype Facet = Facet(key: string, count: nat)

  datatype FacetResponse = FacetResponse(
    data: seq<User>,
    hobbies: seq<Facet>,
    nationalities: seq<Facet>,
    total: nat,
    page: int,
    limit: int,
    totalPages: nat)

  // ---------------------------------------------------------------- filters

  /** `search.toLowerCase().split(' ')`; consecutive spaces give empty terms, which every name contains. */
  function SearchTerms(search: string): seq<string>
  {
    Split(Lower(search), ' ')
  }

  /** `${first.toLowerCase()} ${last.toLowerCase()}`. */
  function FullName(u: User): string
  {
    Lower(u.firstName) + " " + Lower(u.lastName)
  }

  predicate MatchesAllTerms(u: User, terms: seq<string>)
  {
    forall i :: 0 <= i < |terms| ==> Contains(FullName(u), terms[i])
  }

  predicate HasAllHobbies(u: User, hobbies: seq<string>)
  {
    forall i :: 0 <= i < |hobbies| ==> hobbies[i] in u.hobbies
  }

  function BySearch(users: seq<User>, search: string): seq<User>
  {
    if search != "" then Filter(users, (u: User) => MatchesAllTerms(u, SearchTerms(search))) else users
  }

  /** `if (filter.nationality)`: an absent or empty nationality switches the filter off. */
  function ByNationality(users: seq<User>, nationality: Option<string>): seq<User>
  {
    if nationality.Some? && nationality.value != "" then Filter(users, (u: User) => u.nationality == nationality.value)
    else users
  }

  /** `if (filter.hobbies)`: any array, even an empty one, switches the filter on. */
  function ByHobbies(users: seq<User>, hobbies: Option<seq<string>>): seq<User>
  {
    if hobbies.Some? then Filter(users, (u: User) => HasAllHobbies(u, hobbies.value)) else users
  }

  function TestFiltered(users: seq<User>, search: string, filter: FilterSpec): seq<User>
  {
    ByHobbies(ByNationality(BySearch(users, search), filter.nationality), filter.hobbies)
  }

  /** One-pass reference for the three stages. */
  predicate TestAccepts(search: string, filter: FilterSpec, u: User)
  {
    && (search != "" ==> MatchesAllTerms(u, SearchTerms(search)))
    && (filter.nationality.Some? && filter.nationality.value != "" ==> u.nationality == filter.nationality.value)
    && (filter.hobbies.Some? ==> HasAllHobbies(u, filter.hobbies.value))
  }

  /** A user is returned by the filters exactly when it is one of the users and passes every stage. */
  lemma TestFilteredMembers(users: seq<User>, search: string, filter: FilterSpec, u: User)
    ensures u in TestFiltered(users, search, filter) <==> u in users && TestAccepts(search, filter, u)
  {
    var s1 := BySearch(users, search);
    var s2 := ByNationality(s1, filter.nationality);
    assert u in s1 <==> u in users && (search != "" ==> MatchesAllTerms(u, SearchTerms(search)));
    assert u in s2 <==> u in s1 && (filter.nationality.Some? && filter.nationality.value != "" ==> u.nationality == filter.nationality.value);
  }

  /** The filters keep the users' order. */
  lemma TestFilteredIsSubsequence(users: seq<User>, search: string, filter: FilterSpec)
    ensures IsSubsequence(TestFiltered(users, search, filter), users)
  {
    var s := (u: User) => search != "" ==> MatchesAllTerms(u, SearchTerms(search));
    var n := (u: User) => filter.nationality.Some? && filter.nationality.value != "" ==> u.nationality == filter.nationality.value;
    var h := (u: User) => filter.hobbies.Some? ==> HasAllHobbies(u, filter.hobbies.value);
    var sn := (u: User) => s(u) && n(u);
    var all := (u: User) => sn(u) && h(u);
    var s1 := BySearch(users, search);
    if search != "" {
      FilterExt(users, (u: User) => MatchesAllTerms(u, SearchTerms(search)), s);
    } else {
      FilterKeepsAll(users, s);
    }
    var s2 := ByNationality(s1, filter.nationality);
    if filter.nationality.Some? && filter.nationality.value != "" {
      FilterExt(s1, (u: User) => u.nationality == filter.nationality.value, n);
    } else {
      FilterKeepsAll(s1, n);
    }
    FilterFilter(users, s, n, sn);
    if filter.hobbies.Some? {
      FilterExt(s2, (u: User) => HasAllHobbies(u, filter.hobbies.value), h);
    } else {
      FilterKeepsAll(s2, h);
    }
    FilterFilter(users, sn, h, all);
    FilterIsSubsequence(users, all);
  }

  // ------------------------------------------------------- facet counting

  /** Total occurrences of hobby `h` across the users' hobby lists. */
  function HobbyOccurrences(users: seq<User>, h: string): nat
  {
    if users == [] then 0
    else HobbyOccurrences(users[..|users| - 1], h) + Count(users[|users| - 1].hobbies, h)
  }

  /** Number of users of nationality `n`. */
  function NationalityCount(users: seq<User>, n: string): nat
  {
    if users == [] then 0
    else NationalityCount(users[..|users| - 1], n) + (if users[|users| - 1].nationality == n then 1 else 0)
  }

  /** The keys of the map, in insertion order. */
  function Labels(entries: seq<Facet>): (r: seq<string>)
    ensures |r| == |entries|
    ensures forall i :: 0 <= i < |r| ==> r[i] == entries[i].key
  {
    if entries == [] then [] else [entries[0].key] + Labels(entries[1..])
  }

  /** `map.get(label) || 0`. */
  function Lookup(entries: seq<Facet>, key: string): nat
  {
    if entries == [] then 0
    else if entries[0].key == key then entries[0].count
    else Lookup(entries[1..], key)
  }

  /** Sum of the counts. */
  function Total(entries: seq<Facet>): nat
  {
    if entries == [] then 0 else entries[0].count + Total(entries[1..])
  }

  predicate PositiveCounts(entries: seq<Facet>)
  {
    forall i :: 0 <= i < |entries| ==> entries[i].count >= 1
  }

  /** `map.set(label, (map.get(label) || 0) + 1)`: an existing key keeps its place,
      a new key goes last. */
  function Increment(entries: seq<Facet>, key: string): (r: seq<Facet>)
    ensures Lookup(r, key) == Lookup(entries, key) + 1
    ensures forall l :: l != key ==> Lookup(r, l) == Lookup(entries, l)
    ensures Total(r) == Total(entries) + 1
    ensures PositiveCounts(entries) ==> PositiveCounts(r)
  {
    if entries == [] then [Facet(key, 1)]
    else
      var head, tail := entries[0], entries[1..];
      if head.key == key then
        var r := [Facet(key, head.count + 1)] + tail;
        assert r[1..] == tail;
        r
      else
        var rest := Increment(tail, key);
        var r := [head] + rest;
        assert r[1..] == rest;
        r
  }

  /** An existing key keeps its place; a new key goes last. */
  lemma {:induction false} IncrementLabels(entries: seq<Facet>, key: string)
    ensures Labels(Increment(entries, key))
         == if key in Labels(entries) then Labels(entries) else Labels(entries) + [key]
  {
    if entries != [] {
      var head, tail := entries[0], entries[1..];
      assert entries == [head] + tail;
      LabelsCons(head, tail);
      if head.key == key {
        LabelsCons(Facet(key, head.count + 1), tail);
      } else {
        IncrementLabels(tail, key);
        LabelsCons(head, Increment(tail, key));
        ConsSnoc(head.key, Labels(tail), key);
        assert key in Labels(entries) <==> key in Labels(tail);
      }
    }
  }

  lemma LabelsCons(f: Facet, rest: seq<Facet>)
    ensures Labels([f] + rest) == [f.key] + Labels(rest)
  {
    assert ([f] + rest)[1..] == rest;
  }

  lemma IncrementKeepsDistinct(entries: seq<Facet>, key: string)
    requires Distinct(Labels(entries))
    ensures Distinct(Labels(Increment(entries, key)))
  {
    IncrementLabels(entries, key);
    if key !in Labels(entries) {
      DistinctAppend(Labels(entries), key);
    }
  }

  /** With positive counts, a label has a non-zero count exactly when it is a key. */
  lemma {:induction false} LookupPositive(entries: seq<Facet>, key: string)
    requires PositiveCounts(entries)
    ensures Lookup(entries, key) > 0 <==> key in Labels(entries)
  {
    if entries != [] {
      LookupPositive(entries[1..], key);
      assert Labels(entries) == [entries[0].key] + Labels(entries[1..]);
    }
  }

  /** `user.hobbies.forEach(hobby => counts.set(hobby, (counts.get(hobby) || 0) + 1))`. */
  method AddHobbies(counts: seq<Facet>, hs: seq<string>) returns (r: seq<Facet>)
    requires Distinct(Labels(counts)) && PositiveCounts(counts)
    ensures Distinct(Labels(r)) && PositiveCounts(r)
    ensures forall l :: Lookup(r, l) == Lookup(counts, l) + Count(hs, l)
  {
    r := counts;
    var j := 0;
    while j < |hs|
      invariant 0 <= j <= |hs|
      invariant Distinct(Labels(r)) && PositiveCounts(r)
      invariant forall l :: Lookup(r, l) == Lookup(counts, l) + Count(hs[..j], l)
    {
      var next := Increment(r, hs[j]);
      IncrementKeepsDistinct(r, hs[j]);
      forall l ensures Lookup(next, l) == Lookup(counts, l) + Count(hs[..j + 1], l) {
        assert hs[..j + 1][..j] == hs[..j];
      }
      r, j := next, j + 1;
    }
    assert hs[..j] == hs;
  }

  /** The facet reduce: one pass over the users, bumping a hobby counter per listed
      hobby and a nationality counter per user. */
  method CountFacets(users: seq<User>) returns (hobbies: seq<Facet>, nationalities: seq<Facet>)
    ensures Distinct(Labels(hobbies)) && Distinct(Labels(nationalities))
    ensures PositiveCounts(hobbies) && PositiveCounts(nationalities)
    ensures forall l :: Lookup(hobbies, l) == HobbyOccurrences(users, l)
    ensures forall l :: Lookup(nationalities, l) == NationalityCount(users, l)
    ensures Total(nationalities) == |users|
  {
    hobbies, nationalities := [], [];
    var i := 0;
    while i < |users|
      invariant 0 <= i <= |users|
      invariant Distinct(Labels(hobbies)) && Distinct(Labels(nationalities))
      invariant PositiveCounts(hobbies) && PositiveCounts(nationalities)
      invariant forall l :: Lookup(hobbies, l) == HobbyOccurrences(users[..i], l)
      invariant forall l :: Lookup(nationalities, l) == NationalityCount(users[..i], l)
      invariant Total(nationalities) == i
    {
      var u := users[i];
      assert users[..i + 1][..i] == users[..i];
      hobbies := AddHobbies(hobbies, u.hobbies);
      IncrementKeepsDistinct(nationalities, u.nationality);
      nationalities := Increment(nationalities, u.nationality);
      i := i + 1;
    }
    assert users[..i] == users;
  }

  /** The hobby facet labels are exactly the hobbies that occur among the users. */
  lemma HobbyFacetLabels(users: seq<User>, hobbies: seq<Facet>, h: string)
    requires PositiveCounts(hobbies)
    requires forall l :: Lookup(hobbies, l) == HobbyOccurrences(users, l)
    ensures h in Labels(hobbies) <==> exists i :: 0 <= i < |users| && h in users[i].hobbies
  {
    LookupPositive(hobbies, h);
    HobbyOccurrencesPositive(users, h);
  }

  lemma {:induction false} HobbyOccurrencesPositive(users: seq<User>, h: string)
    ensures HobbyOccurrences(users, h) > 0 <==> exists i :: 0 <= i < |users| && h in users[i].hobbies
  {
    if users != [] {
      var init := users[..|users| - 1];
      HobbyOccurrencesPositive(init, h);
      if exists i :: 0 <= i < |init| && h in init[i].hobbies {
        var i :| 0 <= i < |init| && h in init[i].hobbies;
        assert users[i] == init[i];
      }
      if exists i :: 0 <= i < |users| && h in users[i].hobbies {
        var i :| 0 <= i < |users| && h in users[i].hobbies;
        if i < |init| {
          assert init[i] == users[i];
        }
      }
    }
  }

  // ---------------------------------------------------------------- handler

  /** The test server's `/api/users` handler. */
  method HandleTestUsers(users: seq<User>, q: TestQuery) returns (r: FacetResponse)
    requires UserQuery.NumberOr(q.page, DefaultPage) >= 1 && UserQuery.NumberOr(q.limit, DefaultLimit) >= 1
    ensures r.page == UserQuery.NumberOr(q.page, DefaultPage) && r.limit == UserQuery.NumberOr(q.limit, DefaultLimit)
    ensures r.total == |TestFiltered(users, SearchOf(q), FilterOf(q))|
    ensures r.data == UserQuery.Paginate(TestFiltered(users, SearchOf(q), FilterOf(q)), r.page, r.limit)
    ensures r.totalPages == UserQuery.CeilDiv(r.total, r.limit)
    ensures forall l :: Lookup(r.hobbies, l) == HobbyOccurrences(TestFiltered(users, SearchOf(q), FilterOf(q)), l)
    ensures forall l :: Lookup(r.nationalities, l) == NationalityCount(TestFiltered(users, SearchOf(q), FilterOf(q)), l)
    ensures Distinct(Labels(r.hobbies)) && Distinct(Labels(r.nationalities))
    ensures PositiveCounts(r.hobbies) && PositiveCounts(r.nationalities)
    ensures Total(r.nationalities) == r.total
  {
    var page := UserQuery.NumberOr(q.page, DefaultPage);
    var limit := UserQuery.NumberOr(q.limit, DefaultLimit);
    var filtered := TestFiltered(users, SearchOf(q), FilterOf(q));
    var hobbies, nationalities := CountFacets(filtered);
    r := FacetResponse(UserQuery.Paginate(filtered, page, limit), hobbies, nationalities,
                       |filtered|, page, limit, UserQuery.CeilDiv(|filtered|, limit));
  }

  /** `(req.query.search as string) || ''`. */
  function SearchOf(q: TestQuery): string
  {
    match q.search case Some(s) => s case None => ""
  }

  /** `req.query.filter ? JSON.parse(req.query.filter) : {}`. */
  function FilterOf(q: TestQuery): FilterSpec
  {
    match q.filter case Some(f) => f case None => FilterSpec(None, None)
  }
}

/** The three-user fixture of server/src/index.test.ts. */
module FacetQueryFixture {
  import opened Seqs
  import opened Text
  import opened UserModel
  import opened FacetQuery

  function John(): User { User("", "John", "Doe", 30, "USA", ["Reading", "Gaming"], "avatar1.jpg") }
  function Jane(): User { User("", "Jane", "Smith", 25, "Italian", ["Cooking", "Traveling"], "avatar2.jpg") }
  function Mario(): User { User("", "Mario", "Rossi", 35, "Italian", ["Gaming", "Music"], "avatar3.jpg") }

  function Fixture(): seq<User> { [John(), Jane(), Mario()] }

  /** A filter over three users, unrolled. */
  lemma FilterThree(a: User, b: User, c: User, p: User -> bool)
    ensures Filter([a, b, c], p) == (if p(a) then [a] else []) + ((if p(b) then [b] else []) + (if p(c) then [c] else []))
  {
    FilterCons(c, [], p);
    assert [c] + [] == [c];
    assert Filter([c], p) == (if p(c) then [c] else []);
    FilterCons(b, [c], p);
    assert [b] + [c] == [b, c];
    FilterCons(a, [b, c], p);
    assert [a] + [b, c] == [a, b, c];
  }

  lemma Unfiltered()
    ensures TestFiltered(Fixture(), "", FilterSpec(None, None)) == Fixture()
  {
  }

  /** `filter={"nationality":"Italian"}` keeps Jane and Mario. */
  lemma Italians()
    ensures TestFiltered(Fixture(), "", FilterSpec(Some("Italian"), None)) == [Jane(), Mario()]
  {
    FilterThree(John(), Jane(), Mario(), (u: User) => u.nationality == "Italian");
  }

  /** `filter={"hobbies":["Gaming"]}` keeps John and Mario. */
  lemma Gamers()
    ensures TestFiltered(Fixture(), "", FilterSpec(None, Some(["Gaming"]))) == [John(), Mario()]
  {
    assert HasAllHobbies(John(), ["Gaming"]) && HasAllHobbies(Mario(), ["Gaming"]);
    assert ["Gaming"][0] == "Gaming" && "Gaming" !in Jane().hobbies;
    assert !HasAllHobbies(Jane(), ["Gaming"]);
    FilterThree(John(), Jane(), Mario(), (u: User) => HasAllHobbies(u, ["Gaming"]));
  }

  // ---------------------------------------------------------------- search

  /** The lowercased "first last" of each fixture user. */
  lemma JohnName()
    ensures FullName(John()) == "john" + " " + "doe"
  {
    LowerWord("John", "john");
    LowerWord("Doe", "doe");
  }

  lemma JaneName()
    ensures FullName(Jane()) == "jane" + " " + "smith"
  {
    LowerWord("Jane", "jane");
    LowerWord("Smith", "smith");
  }

  lemma MarioName()
    ensures FullName(Mario()) == "mario" + " " + "rossi"
  {
    LowerWord("Mario", "mario");
    LowerWord("Rossi", "rossi");
  }

  /** A lowercase search without spaces is one term. */
  lemma OneTerm(search: string)
    requires ' ' !in search && forall i :: 0 <= i < |search| ==> LowerChar(search[i]) == search[i]
    ensures SearchTerms(search) == [search]
  {
    LowerWord(search, search);
    SplitNoSeparator(search, ' ');
  }

  /** A term that starts the first name occurs in the full name. */
  lemma InFirst(u: User, first: string, last: string, term: string)
    requires FullName(u) == first + " " + last && IsPrefix(term, first)
    ensures Contains(FullName(u), term)
  {
    assert OccursAt(FullName(u), term, 0);
    OccursContains(FullName(u), term, 0);
  }

  /** A term that starts the last name occurs in the full name. */
  lemma InLast(u: User, first: string, last: string, term: string)
    requires FullName(u) == first + " " + last && IsPrefix(term, last)
    ensures Contains(FullName(u), term)
  {
    var k := |first| + 1;
    assert FullName(u)[k..k + |term|] == last[..|term|];
    assert OccursAt(FullName(u), term, k);
    OccursContains(FullName(u), term, k);
  }

  /** A term holding a character of neither name, nor a space, is missed. */
  lemma Misses(u: User, first: string, last: string, terms: seq<string>, k: int, j: int)
    requires FullName(u) == first + " " + last
    requires 0 <= k < |terms| && 0 <= j < |terms[k]|
    requires terms[k][j] !in first && terms[k][j] !in last && terms[k][j] != ' '
    ensures !MatchesAllTerms(u, terms)
  {
    NotContainsMissingChar(FullName(u), terms[k], j);
  }

  lemma JohnHasJohn()
    ensures MatchesAllTerms(John(), ["john"])
  {
    JohnName();
    InFirst(John(), "john", "doe", "john");
  }

  lemma JaneLacksJohn()
    ensures !MatchesAllTerms(Jane(), ["john"])
  {
    JaneName();
    Misses(Jane(), "jane", "smith", ["john"], 0, 1);
  }

  lemma MarioLacksJohn()
    ensures !MatchesAllTerms(Mario(), ["john"])
  {
    MarioName();
    Misses(Mario(), "mario", "rossi", ["john"], 0, 0);
  }

  /** `john` occurs in John's name only. */
  lemma JohnTerm()
    ensures MatchesAllTerms(John(), ["john"])
    ensures !MatchesAllTerms(Jane(), ["john"]) && !MatchesAllTerms(Mario(), ["john"])
  {
    JohnHasJohn();
    JaneLacksJohn();
    MarioLacksJohn();
  }

  /** `search=john` finds John only. */
  lemma SearchJohn(search: string)
    requires search == "john"
    ensures TestFiltered(Fixture(), search, FilterSpec(None, None)) == [John()]
  {
    OneTerm(search);
    JohnTerm();
    FilterThree(John(), Jane(), Mario(), (u: User) => MatchesAllTerms(u, SearchTerms(search)));
  }

  lemma JaneHasSmith()
    ensures MatchesAllTerms(Jane(), ["smith"])
  {
    JaneName();
    InLast(Jane(), "jane", "smith", "smith");
  }

  lemma JohnLacksSmith()
    ensures !MatchesAllTerms(John(), ["smith"])
  {
    JohnName();
    Misses(John(), "john", "doe", ["smith"], 0, 0);
  }

  lemma MarioLacksSmith()
    ensures !MatchesAllTerms(Mario(), ["smith"])
  {
    MarioName();
    Misses(Mario(), "mario", "rossi", ["smith"], 0, 3);
  }

  /** `search=smith` finds Jane Smith only. */
  lemma SearchSmith(search: string)
    requires search == "smith"
    ensures TestFiltered(Fixture(), search, FilterSpec(None, None)) == [Jane()]
  {
    OneTerm(search);
    JaneHasSmith();
    JohnLacksSmith();
    MarioLacksSmith();
    FilterThree(John(), Jane(), Mario(), (u: User) => MatchesAllTerms(u, SearchTerms(search)));
  }

  /** `mario rossi` is the two terms `mario` and `rossi`. */
  lemma TwoTerms(search: string)
    requires search == "mario rossi"
    ensures SearchTerms(search) == ["mario", "rossi"]
  {
    LowerWord(search, search);
    assert search == "mario" + [' '] + "rossi";
    SplitTwo("mario", "rossi", ' ');
  }

  /** A user whose full name contains both terms matches the two-term search. */
  lemma BothTerms(u: User, a: string, b: string)
    requires Contains(FullName(u), a) && Contains(FullName(u), b)
    ensures MatchesAllTerms(u, [a, b])
  {
  }

  lemma MarioHasMarioRossi()
    ensures MatchesAllTerms(Mario(), ["mario", "rossi"])
  {
    MarioName();
    InFirst(Mario(), "mario", "rossi", "mario");
    InLast(Mario(), "mario", "rossi", "rossi");
    BothTerms(Mario(), "mario", "rossi");
  }

  lemma JohnLacksMarioRossi()
    ensures !MatchesAllTerms(John(), ["mario", "rossi"])
  {
    JohnName();
    Misses(John(), "john", "doe", ["mario", "rossi"], 0, 0);
  }

  lemma JaneLacksMarioRossi()
    ensures !MatchesAllTerms(Jane(), ["mario", "rossi"])
  {
    JaneName();
    Misses(Jane(), "jane", "smith", ["mario", "rossi"], 0, 2);
  }

  /** `search=mario rossi` needs both terms, which only Mario Rossi's name holds. */
  lemma SearchMarioRossi(search: string)
    requires search == "mario rossi"
    ensures TestFiltered(Fixture(), search, FilterSpec(None, None)) == [Mario()]
  {
    TwoTerms(search);
    MarioHasMarioRossi();
    JohnLacksMarioRossi();
    JaneLacksMarioRossi();
    FilterThree(John(), Jane(), Mario(), (u: User) => MatchesAllTerms(u, SearchTerms(search)));
  }

  lemma MarioHasMario()
    ensures MatchesAllTerms(Mario(), ["mario"])
  {
    MarioName();
    InFirst(Mario(), "mario", "rossi", "mario");
  }

  lemma JohnLacksMario()
    ensures !MatchesAllTerms(John(), ["mario"])
  {
    JohnName();
    Misses(John(), "john", "doe", ["mario"], 0, 0);
  }

  lemma JaneLacksMario()
    ensures !MatchesAllTerms(Jane(), ["mario"])
  {
    JaneName();
    Misses(Jane(), "jane", "smith", ["mario"], 0, 2);
  }

  /** `search=mario` with `filter={"nationality":"Italian"}` finds Mario only. */
  lemma SearchMarioItalian(search: string)
    requires search == "mario"
    ensures TestFiltered(Fixture(), search, FilterSpec(Some("Italian"), None)) == [Mario()]
  {
    OneTerm(search);
    MarioHasMario();
    JohnLacksMario();
    JaneLacksMario();
    FilterThree(John(), Jane(), Mario(), (u: User) => MatchesAllTerms(u, SearchTerms(search)));
    FilterCons(Mario(), [], (u: User) => u.nationality == "Italian");
    assert [Mario()] + [] == [Mario()];
  }

  /** The nationality counts of the whole fixture. */
  lemma FixtureNationalities()
    ensures NationalityCount(Fixture(), "Italian") == 2 && NationalityCount(Fixture(), "USA") == 1
  {
    var f3 := Fixture();
    var f2 := [John(), Jane()];
    var f1 := [John()];
    assert f3[..2] == f2 && f2[..1] == f1 && f1[..0] == [];
  }

  /** The hobby counts of the whole fixture. */
  lemma FixtureHobbies()
    ensures HobbyOccurrences(Fixture(), "Gaming") == 2 && HobbyOccurrences(Fixture(), "Music") == 1
  {
    var f3 := Fixture();
    var f2 := [John(), Jane()];
    var f1 := [John()];
    assert f3[..2] == f2 && f2[..1] == f1 && f1[..0] == [];
    assert HobbyOccurrences(f1, "Gaming") == Count(["Reading", "Gaming"], "Gaming");
    assert HobbyOccurrences(f1, "Music") == Count(["Reading", "Gaming"], "Music");
    assert ["Reading", "Gaming"][..1] == ["Reading"] && ["Gaming", "Music"][..1] == ["Gaming"];
    assert ["Reading"][..0] == [] && ["Gaming"][..0] == [];
    assert Count(["Reading", "Gaming"], "Gaming") == 1 && Count(["Reading", "Gaming"], "Music") == 0;
    assert Count(["Gaming", "Music"], "Gaming") == 1 && Count(["Gaming", "Music"], "Music") == 1;
    assert Count(["Cooking", "Traveling"], "Gaming") == 0 && Count(["Cooking", "Traveling"], "Music") == 0;
  }

  /** Jane and Mario are both Italian. */
  lemma AllItalian(d: seq<User>)
    requires d == [Jane(), Mario()]
    ensures forall i :: 0 <= i < |d| ==> d[i].nationality == "Italian"
  {
  }

  /** John and Mario both play Gaming. */
  lemma AllGamers(d: seq<User>)
    requires d == [John(), Mario()]
    ensures forall i :: 0 <= i < |d| ==> "Gaming" in d[i].hobbies
  {
  }

  /** `GET /api/users`: page 1 of 10 holds all three users; two are Italian and two play Gaming. */
  method DefaultPagination() returns (r: FacetResponse)
    ensures r.page == 1 && r.limit == 10 && r.total == 3 && |r.data| == 3
    ensures Lookup(r.nationalities, "Italian") == 2 && Lookup(r.nationalities, "USA") == 1
    ensures Lookup(r.hobbies, "Gaming") == 2 && Lookup(r.hobbies, "Music") == 1
  {
    r := HandleTestUsers(Fixture(), TestQuery(None, None, None, None));
    Unfiltered();
    FixtureNationalities();
    FixtureHobbies();
  }

  /** `?page=1&limit=2`: two of the three users. */
  method CustomLimit() returns (r: FacetResponse)
    ensures r.page == 1 && r.limit == 2 && r.total == 3 && |r.data| == 2
  {
    r := HandleTestUsers(Fixture(), TestQuery(Some(1), Some(2), None, None));
    Unfiltered();
  }

  /** `filter={"nationality":"Italian"}`: two users, every one Italian. */
  method ItalianFilter() returns (r: FacetResponse)
    ensures r.total == 2 && r.data == [Jane(), Mario()]
    ensures forall i :: 0 <= i < |r.data| ==> r.data[i].nationality == "Italian"
  {
    r := HandleTestUsers(Fixture(), TestQuery(None, None, None, Some(FilterSpec(Some("Italian"), None))));
    Italians();
    UserQuery.FirstPageWhole([Jane(), Mario()], 10);
    AllItalian(r.data);
  }

  /** `filter={"hobbies":["Gaming"]}`: two users, every one plays Gaming. */
  method GamingFilter() returns (r: FacetResponse)
    ensures r.total == 2 && r.data == [John(), Mario()]
    ensures forall i :: 0 <= i < |r.data| ==> "Gaming" in r.data[i].hobbies
  {
    r := HandleTestUsers(Fixture(), TestQuery(None, None, None, Some(FilterSpec(None, Some(["Gaming"])))));
    Gamers();
    UserQuery.FirstPageWhole([John(), Mario()], 10);
    AllGamers(r.data);
  }

  /** `?page=1&limit=1` with `filter={"nationality":"Italian"}`: one Italian of two. */
  method FilteredPage() returns (r: FacetResponse)
    ensures r.page == 1 && r.limit == 1 && r.total == 2 && |r.data| == 1
    ensures r.data[0].nationality == "Italian"
  {
    r := HandleTestUsers(Fixture(), TestQuery(Some(1), Some(1), None, Some(FilterSpec(Some("Italian"), None))));
    Italians();
  }

  /** A response's `data` for page 1 of a list that fits in one page is the whole list. */
  lemma WholePage(data: seq<User>, filtered: seq<User>, page: int, limit: int)
    requires page == 1 && limit >= 1 && |filtered| <= limit
    requires data == UserQuery.Paginate(filtered, page, limit)
    ensures data == filtered
  {
    UserQuery.FirstPageWhole(filtered, limit);
  }

  /** `?search=john`: one user, John. */
  method SearchByFirstName(search: string) returns (r: FacetResponse)
    requires search == "john"
    ensures r.total == 1 && r.data == [John()] && r.data[0].firstName == "John"
  {
    r := HandleTestUsers(Fixture(), TestQuery(None, None, Some(search), None));
    SearchJohn(search);
    WholePage(r.data, TestFiltered(Fixture(), search, FilterSpec(None, None)), r.page, r.limit);
  }

  /** `?search=smith`: one user, surnamed Smith. */
  method SearchByLastName(search: string) returns (r: FacetResponse)
    requires search == "smith"
    ensures r.total == 1 && r.data == [Jane()] && r.data[0].lastName == "Smith"
  {
    r := HandleTestUsers(Fixture(), TestQuery(None, None, Some(search), None));
    SearchSmith(search);
    WholePage(r.data, TestFiltered(Fixture(), search, FilterSpec(None, None)), r.page, r.limit);
  }

  /** `?search=mario rossi`: one user, Mario Rossi. */
  method SearchAcrossNames(search: string) returns (r: FacetResponse)
    requires search == "mario rossi"
    ensures r.total == 1 && r.data == [Mario()]
    ensures r.data[0].firstName == "Mario" && r.data[0].lastName == "Rossi"
  {
    r := HandleTestUsers(Fixture(), TestQuery(None, None, Some(search), None));
    SearchMarioRossi(search);
    WholePage(r.data, TestFiltered(Fixture(), search, FilterSpec(None, None)), r.page, r.limit);
  }

  /** `search=mario` with `filter={"nationality":"Italian"}`: one user, the Italian Mario. */
  method SearchWithNationality(search: string) returns (r: FacetResponse)
    requires search == "mario"
    ensures r.total == 1 && r.data == [Mario()]
    ensures r.data[0].firstName == "Mario" && r.data[0].nationality == "Italian"
  {
    r := HandleTestUsers(Fixture(), TestQuery(None, None, Some(search), Some(FilterSpec(Some("Italian"), None))));
    SearchMarioItalian(search);
    WholePage(r.data, TestFiltered(Fixture(), search, FilterSpec(Some("Italian"), None)), r.page, r.limit);
  }
}
