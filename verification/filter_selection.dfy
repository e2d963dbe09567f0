/** The multi-select facet list of client/src/components/FilterSection.tsx:
    clicking a label adds it to the selection or removes it. */
module FilterSelection {
  import opened Seqs

  /** A label's checkbox is ticked when the selection includes it. */
  predicate Checked(selected: seq<string>, name: string)
  {
    name in selected
  }

  /** `toggleItem`: a selected label is filtered out, any other label is appended. */
  function Toggle(selected: seq<string>, item: string): seq<string>
  {
    if item in selected then Filter(selected, (i: string) => i != item) else selected + [item]
  }

  /** Clicking a label flips its own checkbox and leaves every other checkbox alone. */
  lemma ToggleFlips(selected: seq<string>, item: string, other: string)
    requires other != item
    ensures Checked(Toggle(selected, item), item) <==> !Checked(selected, item)
    ensures Checked(Toggle(selected, item), other) <==> Checked(selected, other)
  {
  }

  /** Removing a label removes every copy of it and keeps the remaining labels in order. */
  lemma ToggleRemoves(selected: seq<string>, item: string)
    requires item in selected
    ensures item !in Toggle(selected, item)
    ensures IsSubsequence(Toggle(selected, item), selected)
    ensures |Toggle(selected, item)| < |selected|
  {
    var p := (i: string) => i != item;
    FilterIsSubsequence(selected, p);
    FilterShrinks(selected, p, item);
  }

  /** A filter that rejects some element of `s` is strictly shorter than `s`. */
  lemma {:induction false} FilterShrinks(s: seq<string>, p: string -> bool, x: string)
    requires x in s && !p(x)
    ensures |Filter(s, p)| < |s|
  {
    if s[0] != x {
      FilterShrinks(s[1..], p, x);
    }
  }

  /** Adding a label puts it at the end, after the labels chosen before. */
  lemma ToggleAppends(selected: seq<string>, item: string)
    requires item !in selected
    ensures |Toggle(selected, item)| == |selected| + 1
    ensures Toggle(selected, item)[..|selected|] == selected
    ensures Toggle(selected, item)[|selected|] == item
  {
  }

  /** Clicking an unselected label twice restores the selection. */
  lemma ToggleTwice(selected: seq<string>, item: string)
    requires item !in selected
    ensures Toggle(Toggle(selected, item), item) == selected
  {
    var p := (i: string) => i != item;
    FilterAppend(selected, [item], p);
    FilterKeepsAll(selected, p);
    assert Filter([item], p) == [];
  }

  /** A selection built by clicking never holds a label twice. */
  lemma ToggleKeepsDistinct(selected: seq<string>, item: string)
    requires Distinct(selected)
    ensures Distinct(Toggle(selected, item))
  {
    if item in selected {
      FilterIsSubsequence(selected, (i: string) => i != item);
      SubsequenceDistinct(Toggle(selected, item), selected);
    }
  }
}
