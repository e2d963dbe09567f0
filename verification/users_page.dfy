/** The derived state of client/src/pages/UsersPage.tsx: the hobby and
    nationality facets computed from the loaded users, the virtual row count and
    the condition under which the next page is requested. */
module UsersPageLogic {
  import opened Seqs
  import opened UserModel

  /** One entry of a facet list: its label (`name`) and how many loaded users carry it. */
  datatype Facet = Facet(name: string, count: nat)

  /** The order the facet lists are sorted in: lexicographic on characters. */
  predicate LessEq(a: string, b: string)
    decreases |a|
  {
    a == [] || (b != [] && (a[0] < b[0] || (a[0] == b[0] && LessEq(a[1..], b[1..]))))
  }

  lemma {:induction false} LessEqTotal(a: string, b: string)
    ensures LessEq(a, b) || LessEq(b, a)
    decreases |a|
  {
    if a != [] && b != [] && a[0] == b[0] {
      LessEqTotal(a[1..], b[1..]);
    }
  }

  predicate SortedBy<T>(s: seq<T>, key: T -> string)
  {
    forall i :: 0 <= i < |s| - 1 ==> LessEq(key(s[i]), key(s[i + 1]))
  }

  /** `x` placed before the first element whose key is not below its own. */
  function Insert<T>(x: T, s: seq<T>, key: T -> string): seq<T>
  {
    if s == [] then [x]
    else if LessEq(key(x), key(s[0])) then [x] + s
    else [s[0]] + Insert(x, s[1..], key)
  }

  /** `sort((a, b) => a.label.localeCompare(b.label))`, by insertion. */
  function SortBy<T>(s: seq<T>, key: T -> string): seq<T>
  {
    if s == [] then [] else Insert(s[0], SortBy(s[1..], key), key)
  }

  lemma {:induction false} InsertPermutes<T>(x: T, s: seq<T>, key: T -> string)
    ensures multiset(Insert(x, s, key)) == multiset(s) + multiset{x}
  {
    if s != [] && !LessEq(key(x), key(s[0])) {
      InsertPermutes(x, s[1..], key);
      assert s == [s[0]] + s[1..];
    }
  }

  lemma {:induction false} InsertSorted<T>(x: T, s: seq<T>, key: T -> string)
    requires SortedBy(s, key)
    ensures SortedBy(Insert(x, s, key), key)
    ensures |Insert(x, s, key)| == |s| + 1
    ensures Insert(x, s, key)[0] == x || (s != [] && Insert(x, s, key)[0] == s[0])
  {
    if s != [] && !LessEq(key(x), key(s[0])) {
      var t := s[1..];
      var u := Insert(x, t, key);
      InsertSorted(x, t, key);
      LessEqTotal(key(x), key(s[0]));
      var r := Insert(x, s, key);
      assert r == [s[0]] + u;
      assert LessEq(key(r[0]), key(r[1]));
      forall i | 1 <= i < |r| - 1
        ensures LessEq(key(r[i]), key(r[i + 1]))
      {
        assert r[i] == u[i - 1] && r[i + 1] == u[i];
      }
    }
  }

  /** The sort returns its input rearranged into order. */
  lemma {:induction false} SortByPermutes<T>(s: seq<T>, key: T -> string)
    ensures SortedBy(SortBy(s, key), key)
    ensures multiset(SortBy(s, key)) == multiset(s)
  {
    if s != [] {
      SortByPermutes(s[1..], key);
      InsertSorted(s[0], SortBy(s[1..], key), key);
      InsertPermutes(s[0], SortBy(s[1..], key), key);
      assert s == [s[0]] + s[1..];
    }
  }

  function LabelOf(f: Facet): string { f.name }

  function Self(s: string): string { s }

  /** `Array.from(new Set(xs))`: each value once, where it first occurs. */
  function Dedup(xs: seq<string>): (r: seq<string>)
    ensures Distinct(r)
    ensures forall x :: x in r <==> x in xs
  {
    if xs == [] then []
    else
      var d := Dedup(xs[..|xs| - 1]);
      var x := xs[|xs| - 1];
      assert xs == xs[..|xs| - 1] + [x];
      if x in d then d else d + [x]
  }

  /** `users.flatMap(user => user.hobbies)`. */
  function AllHobbies(users: seq<User>): seq<string>
  {
    if users == [] then [] else users[0].hobbies + AllHobbies(users[1..])
  }

  /** `users.map(user => user.nationality)`. */
  function AllNationalities(users: seq<User>): seq<string>
  {
    if users == [] then [] else [users[0].nationality] + AllNationalities(users[1..])
  }

  lemma {:induction false} AllHobbiesMembers(users: seq<User>, x: string)
    ensures x in AllHobbies(users) <==> exists i :: 0 <= i < |users| && x in users[i].hobbies
  {
    if users != [] {
      AllHobbiesMembers(users[1..], x);
      if x in AllHobbies(users[1..]) {
        var i :| 0 <= i < |users[1..]| && x in users[1..][i].hobbies;
        assert x in users[i + 1].hobbies;
      }
      if i :| 0 <= i < |users| && x in users[i].hobbies {
        if i > 0 {
          assert x in users[1..][i - 1].hobbies;
        }
      }
    }
  }

  lemma {:induction false} AllNationalitiesMembers(users: seq<User>, x: string)
    ensures x in AllNationalities(users) <==> exists i :: 0 <= i < |users| && users[i].nationality == x
  {
    if users != [] {
      AllNationalitiesMembers(users[1..], x);
      if x in AllNationalities(users[1..]) {
        var i :| 0 <= i < |users[1..]| && users[1..][i].nationality == x;
        assert users[i + 1].nationality == x;
      }
      if i :| 0 <= i < |users| && users[i].nationality == x {
        if i > 0 {
          assert users[1..][i - 1].nationality == x;
        }
      }
    }
  }

  /** `users.filter(user => user.hobbies.includes(label)).length`. */
  function HobbyCount(users: seq<User>, name: string): nat
  {
    |Filter(users, (u: User) => name in u.hobbies)|
  }

  /** `users.filter(user => user.nationality === label).length`. */
  function NationalityCount(users: seq<User>, name: string): nat
  {
    |Filter(users, (u: User) => u.nationality == name)|
  }

  /** `.map(label => ({ label, count }))`. */
  function Tally(labels: seq<string>, count: string -> nat): seq<Facet>
  {
    if labels == [] then [] else [Facet(labels[0], count(labels[0]))] + Tally(labels[1..], count)
  }

  /** The count callback of the hobby facets. */
  function HobbyCounter(users: seq<User>): string -> nat
  {
    (name: string) => HobbyCount(users, name)
  }

  /** The count callback of the nationality facets. */
  function NationalityCounter(users: seq<User>): string -> nat
  {
    (name: string) => NationalityCount(users, name)
  }

  /** `Array.from(new Set(xs)).map(label => ({ label, count })).sort(...)`. */
  function Facets(xs: seq<string>, count: string -> nat): seq<Facet>
  {
    SortBy(Tally(Dedup(xs), count), LabelOf)
  }

  /** `filters.hobbies`. */
  function HobbyFacets(users: seq<User>): seq<Facet>
  {
    Facets(AllHobbies(users), HobbyCounter(users))
  }

  /** `filters.nationalities`. */
  function NationalityFacets(users: seq<User>): seq<Facet>
  {
    Facets(AllNationalities(users), NationalityCounter(users))
  }

  lemma {:induction false} TallyShape(labels: seq<string>, count: string -> nat)
    ensures |Tally(labels, count)| == |labels|
    ensures forall i :: 0 <= i < |labels| ==> Tally(labels, count)[i] == Facet(labels[i], count(labels[i]))
  {
    if labels != [] {
      TallyShape(labels[1..], count);
    }
  }

  /** Sorting facets by label is sorting their labels and counting afterwards. */
  lemma {:induction false} InsertTally(x: string, s: seq<string>, count: string -> nat)
    ensures Insert(Facet(x, count(x)), Tally(s, count), LabelOf) == Tally(Insert(x, s, Self), count)
  {
    if s != [] {
      InsertTally(x, s[1..], count);
    }
  }

  lemma {:induction false} SortTally(s: seq<string>, count: string -> nat)
    ensures SortBy(Tally(s, count), LabelOf) == Tally(SortBy(s, Self), count)
  {
    if s != [] {
      SortTally(s[1..], count);
      InsertTally(s[0], SortBy(s[1..], Self), count);
    }
  }

  /** Some facet of the list carries the label `x`. */
  predicate HasLabel(facets: seq<Facet>, x: string)
  {
    exists i :: 0 <= i < |facets| && facets[i].name == x
  }

  /** No two facets of the list share a label. */
  predicate DistinctNames(facets: seq<Facet>)
  {
    forall i, j :: 0 <= i < j < |facets| ==> facets[i].name != facets[j].name
  }

  /** The facets built from the values `xs` with counts `count`: one per
      distinct value, in label order, each with its count. */
  lemma FacetsShape(xs: seq<string>, count: string -> nat)
    ensures DistinctNames(Facets(xs, count))
    ensures SortedBy(Facets(xs, count), LabelOf)
    ensures forall i :: 0 <= i < |Facets(xs, count)| ==>
      Facets(xs, count)[i].count == count(Facets(xs, count)[i].name) && Facets(xs, count)[i].name in xs
    ensures forall x :: HasLabel(Facets(xs, count), x) <==> x in xs
  {
    var d := Dedup(xs);
    var sorted := SortBy(d, Self);
    SortTally(d, count);
    SortByPermutes(d, Self);
    PermutationKeepsDistinct(sorted, d);
    assert forall x :: x in sorted <==> x in d by {
      forall x ensures x in sorted <==> x in d {
        assert x in sorted <==> x in multiset(sorted);
        assert x in d <==> x in multiset(d);
      }
    }
    TallyFacts(sorted, count);
  }

  /** Counting sorted, distinct labels gives facets with distinct labels in
      the same order, one per label. */
  lemma TallyFacts(labels: seq<string>, count: string -> nat)
    requires SortedBy(labels, Self) && Distinct(labels)
    ensures DistinctNames(Tally(labels, count))
    ensures SortedBy(Tally(labels, count), LabelOf)
    ensures forall i :: 0 <= i < |Tally(labels, count)| ==>
      Tally(labels, count)[i].count == count(Tally(labels, count)[i].name) && Tally(labels, count)[i].name in labels
    ensures forall x :: HasLabel(Tally(labels, count), x) <==> x in labels
  {
    var r := Tally(labels, count);
    TallyShape(labels, count);
    assert forall i :: 0 <= i < |r| ==> r[i].name == labels[i];
    forall i | 0 <= i < |r| - 1
      ensures LessEq(LabelOf(r[i]), LabelOf(r[i + 1]))
    {
      assert Self(labels[i]) == LabelOf(r[i]) && Self(labels[i + 1]) == LabelOf(r[i + 1]);
    }
    forall x
      ensures HasLabel(r, x) <==> x in labels
    {
      if x in labels {
        var i :| 0 <= i < |labels| && labels[i] == x;
        assert r[i].name == x;
      }
    }
  }

  /** A loaded user carries the hobby `x`. */
  predicate SomeoneHasHobby(users: seq<User>, x: string)
  {
    exists k :: 0 <= k < |users| && x in users[k].hobbies
  }

  /** A loaded user has the nationality `x`. */
  predicate SomeoneFrom(users: seq<User>, x: string)
  {
    exists k :: 0 <= k < |users| && users[k].nationality == x
  }

  /** The hobby facets: one per distinct hobby of the loaded users, in label
      order, each counting the users that have it, which is at least one. */
  lemma HobbyFacetsSpec(users: seq<User>)
    ensures DistinctNames(HobbyFacets(users))
    ensures SortedBy(HobbyFacets(users), LabelOf)
    ensures forall i :: 0 <= i < |HobbyFacets(users)| ==>
      HobbyFacets(users)[i].count == HobbyCount(users, HobbyFacets(users)[i].name) >= 1
    ensures forall x :: HasLabel(HobbyFacets(users), x) <==> SomeoneHasHobby(users, x)
  {
    FacetsShape(AllHobbies(users), HobbyCounter(users));
    var r := HobbyFacets(users);
    forall i | 0 <= i < |r|
      ensures r[i].count >= 1
    {
      var x := r[i].name;
      AllHobbiesMembers(users, x);
      var k :| 0 <= k < |users| && x in users[k].hobbies;
      assert users[k] in Filter(users, (u: User) => x in u.hobbies);
    }
    forall x
      ensures HasLabel(r, x) <==> SomeoneHasHobby(users, x)
    {
      AllHobbiesMembers(users, x);
    }
  }

  /** Sum of the counts of a facet list. */
  function TotalCount(facets: seq<Facet>): nat
  {
    if facets == [] then 0 else facets[0].count + TotalCount(facets[1..])
  }

  /** Users counted over a list of nationalities. */
  function CountOver(labels: seq<string>, users: seq<User>): nat
  {
    if labels == [] then 0 else NationalityCount(users, labels[0]) + CountOver(labels[1..], users)
  }

  lemma {:induction false} TallyTotal(labels: seq<string>, users: seq<User>)
    ensures TotalCount(Tally(labels, NationalityCounter(users))) == CountOver(labels, users)
  {
    if labels != [] {
      TallyTotal(labels[1..], users);
    }
  }

  /** One more user adds one to the count over any repetition-free list that
      holds its nationality, and nothing to one that does not. */
  lemma {:induction false} CountOverCons(labels: seq<string>, u: User, rest: seq<User>)
    requires Distinct(labels)
    ensures CountOver(labels, [u] + rest) == CountOver(labels, rest) + (if u.nationality in labels then 1 else 0)
  {
    if labels != [] {
      CountOverCons(labels[1..], u, rest);
      assert ([u] + rest)[1..] == rest;
      if u.nationality == labels[0] {
        assert u.nationality !in labels[1..];
      }
    }
  }

  /** Counting the users over a repetition-free list holding every nationality
      counts each user once. */
  lemma {:induction false} CountOverAll(labels: seq<string>, users: seq<User>)
    requires Distinct(labels)
    requires forall k :: 0 <= k < |users| ==> users[k].nationality in labels
    ensures CountOver(labels, users) == |users|
  {
    if users == [] {
      CountOverEmpty(labels);
    } else {
      CountOverAll(labels, users[1..]);
      CountOverCons(labels, users[0], users[1..]);
      assert [users[0]] + users[1..] == users;
    }
  }

  lemma {:induction false} CountOverEmpty(labels: seq<string>)
    ensures CountOver(labels, []) == 0
  {
    if labels != [] {
      CountOverEmpty(labels[1..]);
    }
  }

  /** The nationality facets: one per distinct nationality of the loaded users,
      in label order, each counting the users of that nationality (at least one),
      the counts adding up to the number of users. */
  lemma NationalityFacetsSpec(users: seq<User>)
    ensures DistinctNames(NationalityFacets(users))
    ensures SortedBy(NationalityFacets(users), LabelOf)
    ensures forall i :: 0 <= i < |NationalityFacets(users)| ==>
      NationalityFacets(users)[i].count == NationalityCount(users, NationalityFacets(users)[i].name) >= 1
    ensures forall x :: HasLabel(NationalityFacets(users), x) <==> SomeoneFrom(users, x)
    ensures TotalCount(NationalityFacets(users)) == |users|
  {
    FacetsShape(AllNationalities(users), NationalityCounter(users));
    var r := NationalityFacets(users);
    forall i | 0 <= i < |r|
      ensures r[i].count >= 1
    {
      var x := r[i].name;
      AllNationalitiesMembers(users, x);
      var k :| 0 <= k < |users| && users[k].nationality == x;
      assert users[k] in Filter(users, (u: User) => u.nationality == x);
    }
    forall x
      ensures HasLabel(r, x) <==> SomeoneFrom(users, x)
    {
      AllNationalitiesMembers(users, x);
    }
    NationalityTotal(users);
  }

  /** The nationality counts of the facet list add up to the number of users. */
  lemma NationalityTotal(users: seq<User>)
    ensures TotalCount(NationalityFacets(users)) == |users|
  {
    var count := NationalityCounter(users);
    var sorted := SortBy(Dedup(AllNationalities(users)), Self);
    SortTally(Dedup(AllNationalities(users)), count);
    SortByPermutes(Dedup(AllNationalities(users)), Self);
    PermutationKeepsDistinct(sorted, Dedup(AllNationalities(users)));
    TallyTotal(sorted, users);
    forall k | 0 <= k < |users|
      ensures users[k].nationality in sorted
    {
      AllNationalitiesMembers(users, users[k].nationality);
      assert users[k].nationality in multiset(Dedup(AllNationalities(users)));
    }
    CountOverAll(sorted, users);
  }

  /** `filters.hobbies.length > 0`: the hobby section is shown exactly when some
      loaded user has a hobby. */
  lemma HobbySectionShown(users: seq<User>)
    ensures |HobbyFacets(users)| > 0 <==> exists k :: 0 <= k < |users| && |users[k].hobbies| > 0
  {
    HobbyFacetsSpec(users);
    var r := HobbyFacets(users);
    if k :| 0 <= k < |users| && |users[k].hobbies| > 0 {
      assert SomeoneHasHobby(users, users[k].hobbies[0]);
      assert HasLabel(r, users[k].hobbies[0]);
    }
    if |r| > 0 {
      assert HasLabel(r, r[0].name);
      var k :| 0 <= k < |users| && r[0].name in users[k].hobbies;
    }
  }

  /** `filters.nationalities.length > 0`: the nationality section is shown
      exactly when some user is loaded. */
  lemma NationalitySectionShown(users: seq<User>)
    ensures |NationalityFacets(users)| > 0 <==> |users| > 0
  {
    NationalityTotal(users);
    var r := NationalityFacets(users);
    if |r| == 0 {
      assert TotalCount(r) == 0;
    }
    if |users| == 0 {
      assert |Dedup(AllNationalities(users))| == 0;
    }
  }

  /** The virtualizer's `count`: one row per user, plus the loader row while a
      next page exists. */
  function RowCount(userCount: nat, hasNextPage: bool): nat
  {
    if hasNextPage then userCount + 1 else userCount
  }

  /** The effect's test: the last visible row reaches the last user, a next page
      exists, and none is being fetched; nothing happens without visible rows. */
  function ShouldLoadMore(lastIndex: Option<int>, userCount: nat, hasNextPage: bool, isFetchingNextPage: bool): bool
  {
    match lastIndex
    case None => false
    case Some(index) => index >= userCount - 1 && hasNextPage && !isFetchingNextPage
  }

  /** Rows are numbered `0 .. RowCount - 1`, the loader row last while a next
      page exists. When the last visible row is one of them, the next page is
      requested exactly when a next page exists, none is being fetched, and that
      row is the last user's row or the loader row. */
  lemma LoaderRowLoads(userCount: nat, hasNextPage: bool, isFetchingNextPage: bool, index: int)
    requires 0 <= index < RowCount(userCount, hasNextPage)
    ensures hasNextPage ==> (index == userCount <==> index == RowCount(userCount, hasNextPage) - 1)
    ensures ShouldLoadMore(Some(index), userCount, hasNextPage, isFetchingNextPage)
      <==> hasNextPage && !isFetchingNextPage && (index == userCount - 1 || index == userCount)
  {
  }
}
