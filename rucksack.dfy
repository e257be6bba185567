/** Day 3, "Rucksack Reorganization": every three consecutive rucksacks form a
    group whose badge is the one item type all three carry; the answer is the
    sum of the badges' priorities. */
module Rucksack {
  import opened Wrappers

  const AlphabetLowercase: seq<char> := "abcdefghijklmnopqrstuvwxyz"

  const AlphabetUppercase: seq<char> := "ABCDEFGHIJKLMNOPQRSTUVWXYZ"

  predicate StrictlySorted(a: seq<char>) {
    forall i, j | 0 <= i < j < |a| :: a[i] < a[j]
  }

  /** `a` holds the 26 consecutive characters starting at `first`. */
  predicate Consecutive(a: seq<char>, first: char) {
    |a| == 26 && forall i | 0 <= i < 26 :: a[i] as int == first as int + i
  }

  /** The alphabets list consecutive letters. */
  lemma Alphabets()
    ensures Consecutive(AlphabetLowercase, 'a') && Consecutive(AlphabetUppercase, 'A')
  {
  }

  /** `binary_search` on the sorted slice `a[lo..hi]`: the position of `x`, or
      nothing when `x` is not there. */
  function BinarySearch(a: seq<char>, x: char, lo: nat, hi: nat): (r: Option<nat>)
    requires lo <= hi <= |a| && StrictlySorted(a)
    ensures r.Some? ==> lo <= r.value < hi && a[r.value] == x
    ensures r.None? ==> forall i | lo <= i < hi :: a[i] != x
    decreases hi - lo
  {
    if lo == hi then None
    else
      var mid := lo + (hi - lo) / 2;
      if a[mid] == x then Some(mid)
      else if a[mid] < x then BinarySearch(a, x, mid + 1, hi)
      else BinarySearch(a, x, lo, mid)
  }

  /** In a run of consecutive characters the search succeeds exactly for the
      characters of the run, at their offset from its first character. */
  lemma SearchConsecutive(a: seq<char>, first: char, c: char)
    requires Consecutive(a, first)
    ensures StrictlySorted(a)
    ensures BinarySearch(a, c, 0, 26) ==
      if first <= c && (c as int) < first as int + 26 then Some(c as int - first as int) else None
  {
    if first <= c && (c as int) < first as int + 26 {
      assert a[c as int - first as int] == c;
    }
  }

  /** The priority of an item: 'a'..'z' are 1..26, 'A'..'Z' are 27..52, and
      anything else counts 0. Found by binary search in the two alphabets. */
  function ItemPriority(c: char): (p: nat)
    ensures 'a' <= c <= 'z' ==> p == c as int - 'a' as int + 1
    ensures 'A' <= c <= 'Z' ==> p == c as int - 'A' as int + 27
    ensures !('a' <= c <= 'z') && !('A' <= c <= 'Z') ==> p == 0
    ensures p <= 52
  {
    Alphabets();
    SearchConsecutive(AlphabetLowercase, 'a', c);
    SearchConsecutive(AlphabetUppercase, 'A', c);
    match BinarySearch(AlphabetLowercase, c, 0, |AlphabetLowercase|)
    case Some(idx) => idx + 1
    case None =>
      match BinarySearch(AlphabetUppercase, c, 0, |AlphabetUppercase|)
      case Some(idx) => |AlphabetUppercase| + 1 + idx
      case None => 0
  }

  /** `get_total_item_priority`: the priorities of the items, added up. */
  function TotalItemPriority(items: seq<char>): (total: nat)
    ensures total <= 52 * |items|
  {
    if items == [] then 0 else ItemPriority(items[0]) + TotalItemPriority(items[1..])
  }

  /** The total over two lists of items is the sum of their totals. */
  lemma {:induction false} TotalItemPriorityAppend(a: seq<char>, b: seq<char>)
    ensures TotalItemPriority(a + b) == TotalItemPriority(a) + TotalItemPriority(b)
  {
    if a == [] {
      assert a + b == b;
    } else {
      assert (a + b)[1..] == a[1..] + b;
      TotalItemPriorityAppend(a[1..], b);
    }
  }

  /** The distinct item types in one rucksack. */
  function ItemSet(rucksack: string): set<char> {
    set c | c in rucksack
  }

  /** The item types carried by all three rucksacks of group `g`. */
  function GroupCommon(rucksacks: seq<string>, g: nat): set<char>
    requires 3 * g + 2 < |rucksacks|
  {
    ItemSet(rucksacks[3 * g]) * ItemSet(rucksacks[3 * g + 1]) * ItemSet(rucksacks[3 * g + 2])
  }

  lemma Singleton(s: set<char>, b: char)
    requires |s| == 1 && b in s
    ensures s == {b}
  {
    var rest := s - {b};
    assert |rest| == 0;
    assert s == rest + {b};
  }

  /** The item types common to one group's three sets, which must be exactly
      one, the group's badge. */
  method GroupBadge(rucksacks: seq<string>, g: nat, group: seq<set<char>>) returns (badge: Option<char>)
    requires 3 * g + 2 < |rucksacks| && |group| == 3
    requires forall j | 0 <= j < 3 :: group[j] == ItemSet(rucksacks[3 * g + j])
    ensures badge.Some? <==> |GroupCommon(rucksacks, g)| == 1
    ensures badge.Some? ==> GroupCommon(rucksacks, g) == {badge.value}
  {
    var common := group[0] * group[1] * group[2];
    assert common == GroupCommon(rucksacks, g);
    if |common| != 1 {
      return None;
    }
    var b :| b in common;
    Singleton(common, b);
    return Some(b);
  }

  /** The badge loop of `main`: the rucksacks are taken in threes; each complete
      group must have exactly one common item type, which is its badge, or the
      program stops. Rucksacks after the last complete group are ignored. */
  method FindGroupBadges(rucksacks: seq<string>) returns (r: Option<seq<char>>)
    ensures r.Some? <==> forall g: nat | g < |rucksacks| / 3 :: |GroupCommon(rucksacks, g)| == 1
    ensures r.Some? ==> |r.value| == |rucksacks| / 3
    ensures r.Some? ==> forall g: nat | g < |rucksacks| / 3 :: GroupCommon(rucksacks, g) == {r.value[g]}
  {
    var badges: seq<char> := [];
    var group: seq<set<char>> := [];
    for idx := 0 to |rucksacks|
      invariant idx == 3 * |badges| + |group| && |group| < 3
      invariant forall j | 0 <= j < |group| :: group[j] == ItemSet(rucksacks[idx - |group| + j])
      invariant forall g: nat | g < |badges| :: |GroupCommon(rucksacks, g)| == 1
      invariant forall g: nat | g < |badges| :: GroupCommon(rucksacks, g) == {badges[g]}
    {
      group := group + [ItemSet(rucksacks[idx])];
      assert (idx + 1) % 3 == 0 <==> |group| == 3;
      if (idx + 1) % 3 == 0 {
        var badge := GroupBadge(rucksacks, |badges|, group);
        if badge.None? {
          assert |badges| < |rucksacks| / 3;
          return None;
        }
        badges := badges + [badge.value];
        group := [];
      }
    }
    assert |badges| == |rucksacks| / 3;
    return Some(badges);
  }

  /** Each badge is carried by all three rucksacks of its group. */
  lemma BadgesCarried(rucksacks: seq<string>, badges: seq<char>)
    requires |badges| == |rucksacks| / 3
    requires forall g: nat | g < |rucksacks| / 3 :: GroupCommon(rucksacks, g) == {badges[g]}
    ensures forall g: nat | g < |badges| ::
      && badges[g] in rucksacks[3 * g]
      && badges[g] in rucksacks[3 * g + 1]
      && badges[g] in rucksacks[3 * g + 2]
  {
    forall g: nat | g < |badges|
      ensures badges[g] in rucksacks[3 * g] && badges[g] in rucksacks[3 * g + 1] && badges[g] in rucksacks[3 * g + 2]
    {
      assert badges[g] in GroupCommon(rucksacks, g);
    }
  }
}
