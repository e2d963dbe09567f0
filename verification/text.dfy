/** The string operations the handlers rely on: `toLowerCase`, `includes`,
    `split` on a one-character separator, `join`, and `filter(Boolean)` on the
    pieces of a split. */
module Text {
  import opened Seqs

  /** `toLowerCase` on one character, restricted to the ASCII letters. */
  function LowerChar(c: char): (d: char)
    ensures 'A' <= c <= 'Z' ==> 'a' <= d <= 'z' && d as int - c as int == 32
    ensures !('A' <= c <= 'Z') ==> d == c
  {
    if 'A' <= c <= 'Z' then (c as int + 32) as char else c
  }

  function Lower(s: string): (r: string)
    ensures |r| == |s|
    ensures forall i :: 0 <= i < |s| ==> r[i] == LowerChar(s[i])
  {
    if s == [] then [] else [LowerChar(s[0])] + Lower(s[1..])
  }

  /** A string lowercases to `l` when each of its characters lowercases to the
      matching character of `l`. */
  lemma LowerWord(w: string, l: string)
    requires |w| == |l| && forall i :: 0 <= i < |w| ==> LowerChar(w[i]) == l[i]
    ensures Lower(w) == l
  {
  }

  predicate IsPrefix(p: string, s: string)
  {
    |p| <= |s| && s[..|p|] == p
  }

  /** `hay.includes(needle)`: `needle` occurs in `hay` at some position. */
  predicate Contains(hay: string, needle: string)
    decreases |hay|
  {
    IsPrefix(needle, hay) || (hay != [] && Contains(hay[1..], needle))
  }

  /** `needle` occurs in `hay` starting at index `k`. */
  predicate OccursAt(hay: string, needle: string, k: int)
  {
    0 <= k && k + |needle| <= |hay| && hay[k..k + |needle|] == needle
  }

  /** The recursive definition agrees with the positional one. */
  lemma {:induction false} ContainsAt(hay: string, needle: string)
    ensures Contains(hay, needle) <==> exists k :: OccursAt(hay, needle, k)
    decreases |hay|
  {
    if IsPrefix(needle, hay) {
      assert OccursAt(hay, needle, 0);
    } else if hay == [] {
      assert needle != [];
    } else {
      ContainsAt(hay[1..], needle);
      if k :| OccursAt(hay, needle, k) {
        assert k != 0;
        assert OccursAt(hay[1..], needle, k - 1);
      }
      if Contains(hay[1..], needle) {
        var k :| OccursAt(hay[1..], needle, k);
        assert OccursAt(hay, needle, k + 1);
      }
    }
  }

  /** An occurrence at a known position is an occurrence. */
  lemma OccursContains(hay: string, needle: string, k: int)
    requires OccursAt(hay, needle, k)
    ensures Contains(hay, needle)
  {
    ContainsAt(hay, needle);
  }

  /** A needle holding a character that does not occur in `hay` is not contained in it. */
  lemma NotContainsMissingChar(hay: string, needle: string, j: int)
    requires 0 <= j < |needle| && needle[j] !in hay
    ensures !Contains(hay, needle)
  {
    ContainsAt(hay, needle);
    if k :| OccursAt(hay, needle, k) {
      assert false;
    }
  }

  /** `s.split(sep)`: the maximal separator-free pieces between separators; the
      empty string splits into one empty piece. */
  function Split(s: string, sep: char): (r: seq<string>)
    ensures |r| >= 1
    ensures forall i :: 0 <= i < |r| ==> sep !in r[i]
    ensures Join(r, sep) == s
  {
    if s == [] then [""]
    else
      var rest := Split(s[1..], sep);
      if s[0] == sep then [""] + rest
      else [[s[0]] + rest[0]] + rest[1..]
  }

  /** `xs.join(sep)`: the pieces with one separator between neighbours. */
  function Join(xs: seq<string>, sep: char): string
  {
    if xs == [] then ""
    else if |xs| == 1 then xs[0]
    else xs[0] + [sep] + Join(xs[1..], sep)
  }

  /** `.filter(Boolean)` on strings: drops the empty ones. */
  function DropEmpty(xs: seq<string>): (r: seq<string>)
    ensures forall i :: 0 <= i < |r| ==> r[i] != "" && r[i] in xs
    ensures forall i :: 0 <= i < |xs| && xs[i] != "" ==> xs[i] in r
  {
    Filter(xs, (x: string) => x != "")
  }

  lemma {:induction false} SplitNoSeparator(s: string, sep: char)
    requires sep !in s
    ensures Split(s, sep) == [s]
  {
    if s != [] {
      SplitNoSeparator(s[1..], sep);
    }
  }

  lemma {:induction false} SplitAtSeparator(a: string, b: string, sep: char)
    requires sep !in a
    ensures Split(a + [sep] + b, sep) == [a] + Split(b, sep)
  {
    var s := a + [sep] + b;
    if a == [] {
      assert s[0] == sep && s[1..] == b;
    } else {
      var t := a[1..] + [sep] + b;
      assert s[0] == a[0] && s[0] != sep && s[1..] == t;
      SplitAtSeparator(a[1..], b, sep);
      var rest := Split(t, sep);
      assert rest[0] == a[1..] && rest[1..] == Split(b, sep);
      assert Split(s, sep) == [[a[0]] + rest[0]] + rest[1..];
      assert [a[0]] + a[1..] == a;
    }
  }

  /** Two separator-free words around one separator split into those words. */
  lemma SplitTwo(a: string, b: string, sep: char)
    requires sep !in a && sep !in b
    ensures Split(a + [sep] + b, sep) == [a, b]
  {
    SplitAtSeparator(a, b, sep);
    SplitNoSeparator(b, sep);
  }

  /** Splitting a join gives the pieces back when no piece holds the separator. */
  lemma {:induction false} SplitJoin(xs: seq<string>, sep: char)
    requires xs != []
    requires forall i :: 0 <= i < |xs| ==> sep !in xs[i]
    ensures Split(Join(xs, sep), sep) == xs
  {
    if |xs| == 1 {
      SplitNoSeparator(xs[0], sep);
    } else {
      SplitJoin(xs[1..], sep);
      SplitAtSeparator(xs[0], Join(xs[1..], sep), sep);
      assert [xs[0]] + xs[1..] == xs;
    }
  }

  /** A comma-joined list of non-empty, comma-free labels survives
      `split(',').filter(Boolean)` unchanged, the empty list included. */
  lemma ListRoundTrip(xs: seq<string>, sep: char)
    requires forall i :: 0 <= i < |xs| ==> xs[i] != "" && sep !in xs[i]
    ensures DropEmpty(Split(Join(xs, sep), sep)) == xs
  {
    if xs == [] {
      assert Split("", sep) == [""];
    } else {
      SplitJoin(xs, sep);
      FilterKeepsAll(xs, (x: string) => x != "");
    }
  }
}
