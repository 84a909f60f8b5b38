/** The multi-select chips of both forms: a list used as a set, where clicking
    a chip toggles its tag. `toggleTech` (talent form) and `toggleSkill`
    (employer form) are the same function on different state. */
module Tags {
  import opened Seqs

  /** A skill tag such as "TypeScript". */
  type Tag = string

  function NotEqualTo(x: Tag): Tag -> bool {
    y => y != x
  }

  /** `xs` with every occurrence of `x` removed (`xs.filter(y => y !== x)`). */
  function Without(xs: seq<Tag>, x: Tag): (r: seq<Tag>)
    ensures x !in r
  {
    FilterMembership(NotEqualTo(x), xs, x);
    Filter(NotEqualTo(x), xs)
  }

  /** `prev.includes(tag) ? prev.filter(t => t !== tag) : [...prev, tag]` */
  function Toggle(selected: seq<Tag>, tag: Tag): (r: seq<Tag>)
    ensures tag in r <==> tag !in selected
    ensures forall x :: x != tag ==> (x in r <==> x in selected)
  {
    if tag in selected then
      var r := Without(selected, tag);
      assert forall x :: x != tag ==> (x in r <==> x in selected) by {
        forall x | x != tag
          ensures x in r <==> x in selected
        {
          FilterMembership(NotEqualTo(tag), selected, x);
        }
      }
      r
    else
      selected + [tag]
  }

  /** An absent tag is appended at the end. */
  lemma ToggleAbsentAppends(selected: seq<Tag>, tag: Tag)
    requires tag !in selected
    ensures Toggle(selected, tag) == selected + [tag]
  {
  }

  /** A present tag is removed, with all its occurrences, and nothing else. */
  lemma TogglePresentRemoves(selected: seq<Tag>, tag: Tag)
    requires tag in selected
    ensures Toggle(selected, tag) == Without(selected, tag)
    ensures IsSubsequence(Toggle(selected, tag), selected)
    ensures |Toggle(selected, tag)| < |selected|
  {
    FilterIsSubsequence(NotEqualTo(tag), selected);
    var r := Toggle(selected, tag);
    SubsequenceLength(r, selected);
    if |r| == |selected| {
      WithoutShorter(selected, tag);
    }
  }

  lemma {:induction false} WithoutShorter(xs: seq<Tag>, x: Tag)
    requires x in xs
    ensures |Without(xs, x)| < |xs|
    decreases |xs|
  {
    if xs[0] != x {
      WithoutShorter(xs[1..], x);
    }
  }

  /** The other tags keep their relative order, whichever way the toggle
      goes. */
  lemma ToggleKeepsOthersInOrder(selected: seq<Tag>, tag: Tag)
    ensures Without(Toggle(selected, tag), tag) == Without(selected, tag)
  {
    var p := NotEqualTo(tag);
    if tag in selected {
      FilterIdempotent(p, selected);
    } else {
      FilterAppend(p, selected, [tag]);
      assert Filter(p, [tag]) == [];
    }
  }

  /** A duplicate-free selection stays duplicate-free. */
  lemma TogglePreservesNoDuplicates(selected: seq<Tag>, tag: Tag)
    requires NoDuplicates(selected)
    ensures NoDuplicates(Toggle(selected, tag))
  {
    if tag in selected {
      FilterPreservesNoDuplicates(NotEqualTo(tag), selected);
    }
  }

  /** Toggling an absent tag twice restores the selection. */
  lemma ToggleTwiceAbsent(selected: seq<Tag>, tag: Tag)
    requires tag !in selected
    ensures Toggle(Toggle(selected, tag), tag) == selected
  {
    var p := NotEqualTo(tag);
    FilterAppend(p, selected, [tag]);
    assert Filter(p, [tag]) == [];
    FilterKeepsAll(p, selected);
  }

  /** Toggling a present tag twice keeps the same tags but moves that one to
      the end: the toggle is not an involution on order. */
  lemma ToggleTwicePresent(selected: seq<Tag>, tag: Tag)
    requires tag in selected
    ensures Toggle(Toggle(selected, tag), tag) == Without(selected, tag) + [tag]
  {
  }

  /** One more click on `last` flips the parity of its count and of nothing
      else, as the toggle flips its membership and nothing else. */
  lemma ToggleTracksParity(prev: seq<Tag>, prefix: seq<Tag>, last: Tag)
    requires forall t :: t in prev <==> multiset(prefix)[t] % 2 == 1
    ensures forall t :: t in Toggle(prev, last) <==> multiset(prefix + [last])[t] % 2 == 1
  {
    var m := multiset(prefix + [last]);
    assert m == multiset(prefix) + multiset{last};
    forall t
      ensures t in Toggle(prev, last) <==> m[t] % 2 == 1
    {
      if t == last {
        assert m[t] == multiset(prefix)[t] + 1;
      } else {
        assert m[t] == multiset(prefix)[t];
      }
    }
  }

  /** The selection after a sequence of chip clicks, starting from none:
      it never holds a tag twice, and holds exactly the tags clicked an odd
      number of times. */
  function SelectionAfter(clicks: seq<Tag>): (r: seq<Tag>)
    ensures NoDuplicates(r)
    ensures forall t :: t in r <==> multiset(clicks)[t] % 2 == 1
    decreases |clicks|
  {
    if clicks == [] then []
    else
      var prefix, last := clicks[..|clicks| - 1], clicks[|clicks| - 1];
      var prev := SelectionAfter(prefix);
      assert clicks == prefix + [last];
      ToggleTracksParity(prev, prefix, last);
      TogglePreservesNoDuplicates(prev, last);
      Toggle(prev, last)
  }
}
