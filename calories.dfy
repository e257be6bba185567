/** Day 1, "Calorie Counting": the input lists the calories of the food items
    each elf carries, one item per line, elves separated by blank lines. The
    program totals each elf's calories, reports the elf with the most, and the
    sum of the three largest totals. */
module Calories {
  import opened Wrappers
  import opened Decimal
  import opened MapSums

  /** The elf id is a `u8` that starts at 1 and goes up by one per blank line,
      so at most this many blank lines can be read without overflow. */
  const MaxBlankLines: nat := 254

  function BlankCount(lines: seq<string>): (n: nat)
    ensures n <= |lines|
  {
    if lines == [] then 0
    else BlankCount(lines[..|lines| - 1]) + (if lines[|lines| - 1] == "" then 1 else 0)
  }

  /** Every non-blank line is a number. */
  predicate AllParse(lines: seq<string>) {
    forall i | 0 <= i < |lines| :: lines[i] != "" ==> ParseUnsigned(lines[i]).Some?
  }

  /** Elf `e` has at least one item among `lines`: a non-blank line preceded by
      exactly `e - 1` blank lines. */
  predicate HasItems(lines: seq<string>, e: nat) {
    lines != [] &&
    (HasItems(lines[..|lines| - 1], e) ||
     (lines[|lines| - 1] != "" && 1 + BlankCount(lines[..|lines| - 1]) == e))
  }

  /** The calories of elf `e`: the sum of its item lines. */
  function CaloriesOf(lines: seq<string>, e: nat): nat
    requires AllParse(lines)
  {
    if lines == [] then 0
    else
      var init, last := lines[..|lines| - 1], lines[|lines| - 1];
      CaloriesOf(init, e) +
        (if last != "" && 1 + BlankCount(init) == e then ParseUnsigned(last).value else 0)
  }

  /** The grouping loop of `main`: a map from elf id to that elf's total. An elf
      with no item lines (two blank lines in a row) gets no entry; a line that
      is not a number stops the program. */
  method ElfCalories(lines: seq<string>) returns (r: Option<map<nat, nat>>)
    requires BlankCount(lines) <= MaxBlankLines
    ensures r.Some? <==> AllParse(lines)
    ensures r.Some? ==> forall e: nat :: e in r.value <==> HasItems(lines, e)
    ensures r.Some? ==> forall e | e in r.value :: r.value[e] == CaloriesOf(lines, e)
    ensures r.Some? ==> forall e | e in r.value :: 1 <= e <= 1 + MaxBlankLines
  {
    var elfCalories: map<nat, nat> := map[];
    var elfCounter: nat := 1;
    for k := 0 to |lines|
      invariant elfCounter == 1 + BlankCount(lines[..k])
      invariant AllParse(lines[..k])
      invariant forall e: nat :: e in elfCalories <==> HasItems(lines[..k], e)
      invariant forall e | e in elfCalories :: elfCalories[e] == CaloriesOf(lines[..k], e)
      invariant forall e | e in elfCalories :: 1 <= e <= elfCounter
    {
      PrefixStep(lines, k);
      BlankCountPrefix(lines, k + 1);
      var entry := lines[k];
      if entry == "" {
        elfCounter := elfCounter + 1;
        continue;
      }
      var calories := ParseUnsigned(entry);
      if calories.None? {
        assert !AllParse(lines) by {
          assert lines[k] != "" && ParseUnsigned(lines[k]).None?;
        }
        return None;
      }
      if elfCounter !in elfCalories {
        NoItemsNoCalories(lines[..k], elfCounter);
      }
      if elfCounter in elfCalories {
        elfCalories := elfCalories[elfCounter := elfCalories[elfCounter] + calories.value];
      } else {
        elfCalories := elfCalories[elfCounter := calories.value];
      }
    }
    assert lines[..|lines|] == lines;
    return Some(elfCalories);
  }

  /** What one more line adds to the blank count, the elves with items, the
      parse check and the calories. */
  lemma PrefixStep(lines: seq<string>, k: nat)
    requires k < |lines|
    ensures BlankCount(lines[..k + 1]) == BlankCount(lines[..k]) + (if lines[k] == "" then 1 else 0)
    ensures forall e: nat :: HasItems(lines[..k + 1], e) <==>
              HasItems(lines[..k], e) || (lines[k] != "" && 1 + BlankCount(lines[..k]) == e)
    ensures AllParse(lines[..k + 1]) <==> AllParse(lines[..k]) && (lines[k] != "" ==> ParseUnsigned(lines[k]).Some?)
    ensures AllParse(lines[..k + 1]) ==>
              forall e: nat :: (CaloriesOf(lines[..k + 1], e) == CaloriesOf(lines[..k], e) +
                (if lines[k] != "" && 1 + BlankCount(lines[..k]) == e then ParseUnsigned(lines[k]).value else 0))
  {
    assert lines[..k + 1][..k] == lines[..k];
  }

  /** An elf without item lines has no calories. */
  lemma {:induction false} NoItemsNoCalories(lines: seq<string>, e: nat)
    requires AllParse(lines) && !HasItems(lines, e)
    ensures CaloriesOf(lines, e) == 0
  {
    if lines != [] {
      var init := lines[..|lines| - 1];
      assert AllParse(init) by {
        forall i | 0 <= i < |init| ensures init[i] != "" ==> ParseUnsigned(init[i]).Some? {
          assert init[i] == lines[i];
        }
      }
      NoItemsNoCalories(init, e);
    }
  }

  /** Blank lines of a prefix never outnumber those of the whole input. */
  lemma {:induction false} BlankCountPrefix(lines: seq<string>, k: nat)
    requires k <= |lines|
    ensures BlankCount(lines[..k]) <= BlankCount(lines)
    decreases |lines| - k
  {
    if k < |lines| {
      BlankCountPrefix(lines, k + 1);
      assert lines[..k + 1][..k] == lines[..k];
    } else {
      assert lines[..k] == lines;
    }
  }

  /** The running-maximum loop of `main`. It starts from id 0 and amount 0 and
      only takes a strictly larger total, so the amount bounds every total and,
      when positive, belongs to the returned elf. */
  method MaxElf(elfCalories: map<nat, nat>) returns (id: nat, amount: nat)
    ensures forall e | e in elfCalories :: elfCalories[e] <= amount
    ensures amount == 0 ==> id == 0
    ensures amount > 0 ==> id in elfCalories && elfCalories[id] == amount
  {
    id, amount := 0, 0;
    var rest := elfCalories;
    while rest != map[]
      invariant forall e | e in elfCalories && e !in rest :: elfCalories[e] <= amount
      invariant forall e | e in rest :: e in elfCalories && rest[e] == elfCalories[e]
      invariant amount == 0 ==> id == 0
      invariant amount > 0 ==> id in elfCalories && elfCalories[id] == amount
      decreases |rest|
    {
      var e :| e in rest;
      if rest[e] > amount {
        amount := rest[e];
        id := e;
      }
      RemoveSize(rest, e);
      rest := rest - {e};
    }
  }

  predicate Sorted(s: seq<nat>) {
    forall i, j | 0 <= i < j < |s| :: s[i] <= s[j]
  }

  /** Every element of a list holding the elements of `s` and `x` is `x` or in `s`. */
  lemma MultisetMembers(r: seq<nat>, s: seq<nat>, x: nat)
    requires multiset(r) == multiset(s) + multiset{x}
    ensures forall i | 0 <= i < |r| :: r[i] == x || r[i] in s
  {
    forall i | 0 <= i < |r| ensures r[i] == x || r[i] in s {
      assert r[i] in multiset(r);
      assert r[i] in multiset(s) || r[i] in multiset{x};
    }
  }

  /** Places `x` into `s` just before the first larger element. */
  function Insert(x: nat, s: seq<nat>): seq<nat> {
    if s == [] then [x]
    else if x <= s[0] then [x] + s
    else [s[0]] + Insert(x, s[1..])
  }

  /** A list headed by an element no larger than any of a sorted rest is sorted. */
  lemma ConsSorted(a: nat, t: seq<nat>)
    requires Sorted(t) && forall i | 0 <= i < |t| :: a <= t[i]
    ensures Sorted([a] + t)
  {
    var r := [a] + t;
    forall i, j | 0 <= i < j < |r| ensures r[i] <= r[j] {
      assert r[j] == t[j - 1];
      if i > 0 {
        assert r[i] == t[i - 1];
      }
    }
  }

  lemma SortedTail(s: seq<nat>)
    requires Sorted(s) && s != []
    ensures Sorted(s[1..])
  {
    forall i, j | 0 <= i < j < |s[1..]| ensures s[1..][i] <= s[1..][j] {
      assert s[1..][i] == s[i + 1] && s[1..][j] == s[j + 1];
    }
  }

  /** Inserting adds one copy of `x`. */
  lemma {:induction false} InsertPermutes(x: nat, s: seq<nat>)
    ensures multiset(Insert(x, s)) == multiset(s) + multiset{x}
  {
    if s != [] && x > s[0] {
      InsertPermutes(x, s[1..]);
      assert s == [s[0]] + s[1..];
    }
  }

  /** Inserting into a sorted list keeps it sorted. */
  lemma {:induction false} InsertSorted(x: nat, s: seq<nat>)
    requires Sorted(s)
    ensures Sorted(Insert(x, s))
  {
    if s == [] {
    } else if x <= s[0] {
      ConsSorted(x, s);
    } else {
      var tail := Insert(x, s[1..]);
      SortedTail(s);
      InsertSorted(x, s[1..]);
      InsertPermutes(x, s[1..]);
      MultisetMembers(tail, s[1..], x);
      assert forall i | 0 <= i < |tail| :: s[0] <= tail[i];
      ConsSorted(s[0], tail);
    }
  }

  /** `sort` on a vector of totals: ascending, with the same elements. */
  function Sort(s: seq<nat>): (r: seq<nat>)
    ensures Sorted(r) && multiset(r) == multiset(s)
  {
    if s == [] then []
    else
      assert s == [s[0]] + s[1..];
      InsertSorted(s[0], Sort(s[1..]));
      InsertPermutes(s[0], Sort(s[1..]));
      Insert(s[0], Sort(s[1..]))
  }

  /** The printed top-three figure: the totals collected, sorted ascending, and
      the last three added up. The program panics on fewer than three elves. */
  method TopThreeSum(elfCalories: map<nat, nat>) returns (total: nat, sorted: seq<nat>)
    requires |elfCalories| >= 3
    ensures Sorted(sorted) && multiset(sorted) == ValueBag(elfCalories)
    ensures |sorted| == |elfCalories|
    ensures total == sorted[|sorted| - 1] + sorted[|sorted| - 2] + sorted[|sorted| - 3]
  {
    var allCalories := CollectValues(elfCalories);
    sorted := Sort(allCalories);
    assert |sorted| == |multiset(sorted)| == |allCalories|;
    var n := |sorted|;
    total := sorted[n - 3] + sorted[n - 2] + sorted[n - 1];
  }

  /** The last three entries of a sorted list outweigh any other three. */
  lemma TopThreeIsLargest(sorted: seq<nat>, i: nat, j: nat, k: nat)
    requires Sorted(sorted) && i < j < k < |sorted|
    ensures sorted[i] + sorted[j] + sorted[k] <=
            sorted[|sorted| - 1] + sorted[|sorted| - 2] + sorted[|sorted| - 3]
  {
    var n := |sorted|;
    assert i <= n - 3 && j <= n - 2;
    assert sorted[i] <= sorted[n - 3];
    assert sorted[j] <= sorted[n - 2];
    assert sorted[k] <= sorted[n - 1];
  }
}
