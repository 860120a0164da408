/** The arithmetic of a chunk's material report: the entries are sorted by
    display name with Java's `String.compareTo`, the report totals the item
    counts and the per-entry stack counts (64 items to a stack, rounded up
    per entry), and each entry's line carries a "(N stacks + R)" clause. */
module MaterialReport {
  import opened Common

  /** Items in one stack. */
  const StackSize := 64

  /** One entry of a material list: the display name of the item and the
      total count the chunk needs. */
  datatype MaterialEntry = MaterialEntry(name: string, count: nat)

  // ---------------------------------------------------------------------
  // Ordering by display name
  // ---------------------------------------------------------------------

  /** `String.compareTo`: the difference of the first differing characters,
      or the difference of the lengths when one string is a prefix of the
      other. */
  function CompareTo(a: string, b: string): int
  {
    if |a| == 0 || |b| == 0 then |a| - |b|
    else if a[0] != b[0] then a[0] as int - b[0] as int
    else CompareTo(a[1..], b[1..])
  }

  /** Swapping the arguments negates the result. */
  lemma {:induction false} CompareToAntisymmetric(a: string, b: string)
    ensures CompareTo(b, a) == -CompareTo(a, b)
  {
    if |a| > 0 && |b| > 0 && a[0] == b[0] {
      CompareToAntisymmetric(a[1..], b[1..]);
    }
  }

  /** The result is zero exactly for equal strings. */
  lemma {:induction false} CompareToZero(a: string, b: string)
    ensures CompareTo(a, b) == 0 <==> a == b
  {
    if |a| > 0 && |b| > 0 && a[0] == b[0] {
      CompareToZero(a[1..], b[1..]);
      assert a == [a[0]] + a[1..] && b == [b[0]] + b[1..];
    }
  }

  /** "Not after" is transitive. */
  lemma {:induction false} CompareToTransitive(a: string, b: string, c: string)
    requires CompareTo(a, b) <= 0 && CompareTo(b, c) <= 0
    ensures CompareTo(a, c) <= 0
  {
    if |a| > 0 && |b| > 0 && |c| > 0 && a[0] == b[0] && b[0] == c[0] {
      CompareToTransitive(a[1..], b[1..], c[1..]);
    }
  }

  /** Entry `e1` may precede entry `e2` in the sorted list. */
  predicate NameLeq(e1: MaterialEntry, e2: MaterialEntry)
  {
    CompareTo(e1.name, e2.name) <= 0
  }

  /** The list is non-decreasing by display name. */
  predicate SortedByName(s: seq<MaterialEntry>)
  {
    forall i, j :: 0 <= i < j < |s| ==> NameLeq(s[i], s[j])
  }

  /** Non-decreasing neighbours make a non-decreasing list. */
  lemma {:induction false} NeighboursSorted(s: seq<MaterialEntry>)
    requires forall k :: 0 <= k < |s| - 1 ==> NameLeq(s[k], s[k + 1])
    ensures SortedByName(s)
  {
    forall i, j | 0 <= i < j < |s|
      ensures NameLeq(s[i], s[j])
    {
      NeighboursChain(s, i, j);
    }
  }

  lemma {:induction false} NeighboursChain(s: seq<MaterialEntry>, i: int, j: int)
    requires forall k :: 0 <= k < |s| - 1 ==> NameLeq(s[k], s[k + 1])
    requires 0 <= i < j < |s|
    ensures NameLeq(s[i], s[j])
    decreases j - i
  {
    if i + 1 < j {
      NeighboursChain(s, i, j - 1);
      CompareToTransitive(s[i].name, s[j - 1].name, s[j].name);
    }
  }

  /** Neighbours `s[k]`, `s[k + 1]` are in order for every `k < n - 1`. */
  predicate PrefixSorted(s: seq<MaterialEntry>, n: int)
    requires n <= |s|
  {
    forall k :: 0 <= k < n - 1 ==> NameLeq(s[k], s[k + 1])
  }

  /** While `s[i]` moves down, it sits at `j`: every pair of neighbours in
      `s[..i + 1]` not touching `j` is in order, the element at `j` is not
      after the one above it, and the elements around `j` are in order. */
  predicate Inserting(s: seq<MaterialEntry>, i: int, j: int)
    requires 0 <= j <= i < |s|
  {
    (forall k :: 0 <= k < i && k != j - 1 && k != j ==> NameLeq(s[k], s[k + 1])) &&
    (0 < j < i ==> NameLeq(s[j - 1], s[j + 1])) &&
    (j < i ==> NameLeq(s[j], s[j + 1]))
  }

  /** Swapping the moving element with a larger left neighbour keeps the
      insertion invariant one place further down. */
  lemma SwapDown(before: seq<MaterialEntry>, after: seq<MaterialEntry>, i: int, j: int)
    requires 0 < j <= i < |before|
    requires Inserting(before, i, j)
    requires CompareTo(before[j - 1].name, before[j].name) > 0
    requires after == before[j - 1 := before[j]][j := before[j - 1]]
    ensures Inserting(after, i, j - 1)
    ensures multiset(after) == multiset(before)
  {
    CompareToAntisymmetric(before[j - 1].name, before[j].name);
  }

  /** One insertion step: `a[i]` moves down past every larger neighbour,
      which leaves `a[..i + 1]` in order. */
  method Insert(a: array<MaterialEntry>, i: int)
    requires 0 <= i < a.Length
    requires PrefixSorted(a[..], i)
    modifies a
    ensures PrefixSorted(a[..], i + 1)
    ensures multiset(a[..]) == multiset(old(a[..]))
  {
    var j := i;
    while j > 0 && CompareTo(a[j - 1].name, a[j].name) > 0
      invariant 0 <= j <= i
      invariant Inserting(a[..], i, j)
      invariant multiset(a[..]) == multiset(old(a[..]))
    {
      ghost var before := a[..];
      a[j - 1], a[j] := a[j], a[j - 1];
      SwapDown(before, a[..], i, j);
      j := j - 1;
    }
  }

  /** `Collections.sort` with the display-name comparator, as an insertion
      sort: the list ends up non-decreasing by name and is a permutation of
      what it was. */
  method SortByName(a: array<MaterialEntry>)
    modifies a
    ensures SortedByName(a[..])
    ensures multiset(a[..]) == multiset(old(a[..]))
  {
    var i := 0;
    while i < a.Length
      invariant 0 <= i <= a.Length
      invariant PrefixSorted(a[..], i)
      invariant multiset(a[..]) == multiset(old(a[..]))
    {
      Insert(a, i);
      i := i + 1;
    }
    NeighboursSorted(a[..]);
  }

  // ---------------------------------------------------------------------
  // Totals
  // ---------------------------------------------------------------------

  /** Items of one entry. */
  function EntryItems(e: MaterialEntry): nat
  {
    e.count
  }

  /** Stacks of one entry, `Math.ceil(count / 64.0)`. */
  function EntryStacks(e: MaterialEntry): nat
  {
    CeilDiv(e.count, StackSize)
  }

  /** Sum of `f` over the entries, accumulated front to back. */
  function Total(s: seq<MaterialEntry>, f: MaterialEntry -> nat): nat
  {
    if s == [] then 0 else Total(s[..|s| - 1], f) + f(s[|s| - 1])
  }

  /** Leaving out entry `j` takes exactly its share off the sum. */
  lemma {:induction false} TotalRemove(s: seq<MaterialEntry>, f: MaterialEntry -> nat, j: int)
    requires 0 <= j < |s|
    ensures Total(s, f) == Total(s[..j] + s[j + 1..], f) + f(s[j])
  {
    var n := |s|;
    if j < n - 1 {
      var init := s[..n - 1];
      TotalRemove(init, f, j);
      assert init[..j] + init[j + 1..] + [s[n - 1]] == s[..j] + s[j + 1..];
      assert (s[..j] + s[j + 1..])[..n - 2] == init[..j] + init[j + 1..];
    } else {
      assert s[..j] + s[j + 1..] == s[..n - 1];
    }
  }

  /** The sum does not depend on the order of the entries. */
  lemma {:induction false} TotalPermutation(s: seq<MaterialEntry>, t: seq<MaterialEntry>, f: MaterialEntry -> nat)
    requires multiset(s) == multiset(t)
    ensures Total(s, f) == Total(t, f)
    decreases |s|
  {
    if s == [] {
      assert |t| == |multiset(t)| == 0;
    } else {
      var n := |s|;
      var x := s[n - 1];
      assert s == s[..n - 1] + [x];
      assert x in multiset(t);
      var j :| 0 <= j < |t| && t[j] == x;
      var rest := t[..j] + t[j + 1..];
      assert t == t[..j] + [x] + t[j + 1..];
      assert multiset(rest) == multiset(t) - multiset{x};
      TotalPermutation(s[..n - 1], rest, f);
      TotalRemove(t, f, j);
    }
  }

  /** The totals loop: `totalItems` is the sum of the counts and
      `totalStacks` the sum of the per-entry rounded-up stacks. */
  method Totals(list: seq<MaterialEntry>) returns (totalItems: nat, totalStacks: nat)
    ensures totalItems == Total(list, EntryItems)
    ensures totalStacks == Total(list, EntryStacks)
  {
    totalItems, totalStacks := 0, 0;
    for i := 0 to |list|
      invariant totalItems == Total(list[..i], EntryItems)
      invariant totalStacks == Total(list[..i], EntryStacks)
    {
      assert list[..i + 1][..i] == list[..i];
      var count := list[i].count;
      totalItems := totalItems + count;
      totalStacks := totalStacks + CeilDiv(count, StackSize);
    }
    assert list[..|list|] == list;
  }

  /** Rounding up per entry: the stacks hold every item and waste fewer than
      one stack per entry. */
  lemma {:induction false} StacksHoldItems(s: seq<MaterialEntry>)
    ensures StackSize * Total(s, EntryStacks) >= Total(s, EntryItems)
    ensures StackSize * Total(s, EntryStacks) <= Total(s, EntryItems) + (StackSize - 1) * |s|
  {
    if s != [] {
      StacksHoldItems(s[..|s| - 1]);
    }
  }

  /** The reported stacks are at least the stacks the total item count
      needs, at most one more per entry, and never more than the items. */
  lemma TotalStacksBounds(s: seq<MaterialEntry>)
    ensures CeilDiv(Total(s, EntryItems), StackSize) <= Total(s, EntryStacks)
    ensures Total(s, EntryStacks) <= CeilDiv(Total(s, EntryItems), StackSize) + |s|
    ensures Total(s, EntryStacks) <= Total(s, EntryItems)
  {
    StacksHoldItems(s);
  }

  // ---------------------------------------------------------------------
  // Entry lines
  // ---------------------------------------------------------------------

  /** The clause after an entry's count: none, "(N stacks)" or
      "(N stacks + R)". */
  datatype StackClause = NoClause | Stacks(stacks: nat) | StacksPlus(stacks: nat, remainder: nat)

  /** The clause for a count, from `stacks = count / 64` and
      `remainder = count % 64`: no clause below one full stack, the
      remainder only when there is one. */
  function ClauseOf(count: nat): (c: StackClause)
    ensures c.NoClause? <==> count < StackSize
    ensures c.Stacks? ==> c.stacks > 0 && count == StackSize * c.stacks
    ensures c.StacksPlus? ==>
              c.stacks > 0 && 0 < c.remainder < StackSize && count == StackSize * c.stacks + c.remainder
  {
    var stacks := count / StackSize;
    var remainder := count % StackSize;
    if stacks > 0 then
      if remainder > 0 then StacksPlus(stacks, remainder) else Stacks(stacks)
    else NoClause
  }

  /** The clause for a count is the one whose numbers rebuild the count:
      the stacks and remainder are the quotient and remainder by 64. */
  lemma ClauseOfUnique(count: nat, stacks: nat, remainder: nat)
    requires count == StackSize * stacks + remainder && remainder < StackSize
    ensures ClauseOf(count) == if stacks == 0 then NoClause
                               else if remainder == 0 then Stacks(stacks)
                               else StacksPlus(stacks, remainder)
  {
  }

  /** One line of the report: name, count and stack clause. */
  datatype EntryLine = EntryLine(name: string, count: nat, clause: StackClause)

  function LineOf(e: MaterialEntry): EntryLine
  {
    EntryLine(e.name, e.count, ClauseOf(e.count))
  }

  /** The numbers of a report: the sorted entries, the two totals and one
      line per entry, in order. */
  datatype Report = Report(entries: seq<MaterialEntry>, totalItems: nat, totalStacks: nat, lines: seq<EntryLine>)

  /** A material report for a chunk whose material list is `list` (the
      result of the material-list collaborator): an empty list gives no
      report; otherwise the list is sorted in place by name and the report
      holds its totals and one line per entry. */
  method GenerateMaterialList(list: array<MaterialEntry>) returns (report: Option<Report>)
    modifies list
    ensures report.None? <==> list.Length == 0
    ensures list.Length == 0 ==> list[..] == old(list[..])
    ensures SortedByName(list[..]) && multiset(list[..]) == multiset(old(list[..]))
    ensures report.Some? ==>
              report.value.entries == list[..] &&
              report.value.totalItems == Total(old(list[..]), EntryItems) &&
              report.value.totalStacks == Total(old(list[..]), EntryStacks) &&
              |report.value.lines| == list.Length &&
              forall i :: 0 <= i < list.Length ==> report.value.lines[i] == LineOf(list[i])
  {
    if list.Length == 0 {
      return None;
    }
    SortByName(list);
    var totalItems, totalStacks := Totals(list[..]);
    TotalPermutation(list[..], old(list[..]), EntryItems);
    TotalPermutation(list[..], old(list[..]), EntryStacks);
    var lines := [];
    for i := 0 to list.Length
      invariant |lines| == i
      invariant forall k :: 0 <= k < i ==> lines[k] == LineOf(list[k])
    {
      lines := lines + [LineOf(list[i])];
    }
    report := Some(Report(list[..], totalItems, totalStacks, lines));
  }

  /** Counts 1536, 1 and 96 give the clauses "(24 stacks)", none and
      "(1 stacks + 32)", 1633 items and 24 + 1 + 2 = 27 stacks. */
  lemma ReportExample()
    ensures ClauseOf(1536) == Stacks(24) && ClauseOf(1) == NoClause && ClauseOf(96) == StacksPlus(1, 32)
    ensures var s := [MaterialEntry("a", 1536), MaterialEntry("b", 1), MaterialEntry("c", 96)];
      Total(s, EntryItems) == 1633 && Total(s, EntryStacks) == 27
  {
    var s := [MaterialEntry("a", 1536), MaterialEntry("b", 1), MaterialEntry("c", 96)];
    assert s[..2] == [MaterialEntry("a", 1536), MaterialEntry("b", 1)];
    assert s[..2][..1] == [MaterialEntry("a", 1536)];
    assert s[..2][..1][..0] == [];
    assert CeilDiv(1536, 64) == 24 && CeilDiv(1, 64) == 1 && CeilDiv(96, 64) == 2;
    assert Total(s[..2][..1], EntryStacks) == 24;
    assert Total(s[..2], EntryStacks) == 25;
    assert Total(s[..2][..1], EntryItems) == 1536;
    assert Total(s[..2], EntryItems) == 1537;
  }
}
