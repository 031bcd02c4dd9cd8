/**
 * The error report printed after all files are checked: the records grouped
 * by `(error_type, check_name)`, each group with the number of its records
 * (`groupby(...).size()`), the groups sorted by that number, largest first
 * (`sort_values('count', ascending=False)`), and the total number of records.
 *
 * The table of records is a sequence of `Issue`s, one per row. The sort that
 * orders the groups is not stable, so the order of groups with equal counts
 * is left open: the contracts below say only that counts never increase
 * along the report.
 */
module ErrorReport {
  import opened ValeParser

  /** The columns the records are grouped by. */
  datatype GroupKey = GroupKey(errorType: string, checkName: string)

  /** One row of the report: a key and the number of records with it. */
  datatype Group = Group(key: GroupKey, count: nat)

  function KeyOf(r: Issue): GroupKey {
    GroupKey(r.errorType, r.checkName)
  }

  /** The number of records with key `k`. */
  function CountOf(records: seq<Issue>, k: GroupKey): (n: nat)
    ensures n <= |records|
  {
    if |records| == 0 then 0
    else (if KeyOf(records[0]) == k then 1 else 0) + CountOf(records[1..], k)
  }

  /** The number of groups with key `k`. */
  function Occurrences(gs: seq<Group>, k: GroupKey): nat {
    if |gs| == 0 then 0
    else (if gs[0].key == k then 1 else 0) + Occurrences(gs[1..], k)
  }

  /** The sum of the counts, which the report's total should equal. */
  function Total(gs: seq<Group>): nat {
    if |gs| == 0 then 0 else gs[0].count + Total(gs[1..])
  }

  /** Every group has a positive count, the number of records with its key. */
  predicate CountsMatch(gs: seq<Group>, records: seq<Issue>) {
    forall g :: g in gs ==> 0 < g.count == CountOf(records, g.key)
  }

  /** Exactly one group for each key that some record carries, and none for
      any other key. */
  ghost predicate OnceEach(gs: seq<Group>, records: seq<Issue>) {
    forall k :: Occurrences(gs, k) == (if CountOf(records, k) > 0 then 1 else 0)
  }

  /** The counts never increase along `gs`. */
  predicate NonIncreasing(gs: seq<Group>) {
    forall i, j :: 0 <= i < j < |gs| ==> gs[i].count >= gs[j].count
  }

  // ---------------------------------------------------------------------
  // Grouping

  /** One more record with key `k`: its group's count goes up by one, or a
      group with count 1 is added when there is none yet. */
  function Bump(gs: seq<Group>, k: GroupKey): seq<Group> {
    if |gs| == 0 then [Group(k, 1)]
    else if gs[0].key == k then [Group(k, gs[0].count + 1)] + gs[1..]
    else [gs[0]] + Bump(gs[1..], k)
  }

  /** `groupby(['error_type', 'check_name']).size()`: the groups of the
      records with their sizes. */
  function GroupCounts(records: seq<Issue>): (gs: seq<Group>)
    ensures Total(gs) == |records|
  {
    if |records| == 0 then []
    else
      var rest := GroupCounts(records[1..]);
      BumpTotal(rest, KeyOf(records[0]));
      Bump(rest, KeyOf(records[0]))
  }

  lemma {:induction false} BumpTotal(gs: seq<Group>, k: GroupKey)
    ensures Total(Bump(gs, k)) == Total(gs) + 1
  {
    if |gs| > 0 && gs[0].key != k {
      BumpTotal(gs[1..], k);
      assert Bump(gs, k)[1..] == Bump(gs[1..], k);
    } else if |gs| > 0 {
      assert Bump(gs, k)[1..] == gs[1..];
    }
  }

  lemma {:induction false} BumpOccurrences(gs: seq<Group>, k: GroupKey, k': GroupKey)
    ensures Occurrences(Bump(gs, k), k')
            == if k == k' then (if Occurrences(gs, k) == 0 then 1 else Occurrences(gs, k))
               else Occurrences(gs, k')
  {
    if |gs| > 0 && gs[0].key != k {
      BumpOccurrences(gs[1..], k, k');
      assert Bump(gs, k)[1..] == Bump(gs[1..], k);
    } else if |gs| > 0 {
      assert Bump(gs, k)[1..] == gs[1..];
    }
  }

  /** Every group of `Bump(gs, k)` is a group of `gs`, the group of `k` with
      its count raised by one, or a new group of `k` with count 1 where `gs`
      has none. */
  lemma {:induction false} BumpMembers(gs: seq<Group>, k: GroupKey, g: Group)
    requires g in Bump(gs, k) && Occurrences(gs, k) <= 1
    ensures (g.key != k && g in gs)
            || (g.key == k && g.count >= 1 && Group(k, g.count - 1) in gs)
            || (g == Group(k, 1) && Occurrences(gs, k) == 0)
  {
    if |gs| > 0 && gs[0].key != k {
      if g != gs[0] {
        assert g in Bump(gs[1..], k);
        BumpMembers(gs[1..], k, g);
      }
    } else if |gs| > 0 {
      if g != Group(k, gs[0].count + 1) {
        assert g in gs[1..];
        if g.key == k {
          OccurrencesIn(gs[1..], g);
        }
      }
    }
  }

  /** A group in `gs` counts among the occurrences of its key. */
  lemma {:induction false} OccurrencesIn(gs: seq<Group>, g: Group)
    requires g in gs
    ensures Occurrences(gs, g.key) >= 1
  {
    if gs[0] != g {
      OccurrencesIn(gs[1..], g);
    }
  }

  /** The grouping has one group per key of the records, with its count. */
  lemma {:induction false} GroupCountsCorrect(records: seq<Issue>)
    ensures CountsMatch(GroupCounts(records), records)
    ensures OnceEach(GroupCounts(records), records)
  {
    if |records| > 0 {
      var rest := GroupCounts(records[1..]);
      var k := KeyOf(records[0]);
      GroupCountsCorrect(records[1..]);
      forall k' ensures Occurrences(Bump(rest, k), k') == (if CountOf(records, k') > 0 then 1 else 0) {
        BumpOccurrences(rest, k, k');
      }
      forall g | g in Bump(rest, k) ensures 0 < g.count == CountOf(records, g.key) {
        BumpMembers(rest, k, g);
      }
    }
  }

  // ---------------------------------------------------------------------
  // Sorting by count, largest first

  /** `g` placed before the first group whose count is not larger. */
  function Insert(g: Group, s: seq<Group>): seq<Group> {
    if |s| == 0 || s[0].count <= g.count then [g] + s
    else [s[0]] + Insert(g, s[1..])
  }

  lemma {:induction false} InsertPerm(g: Group, s: seq<Group>)
    ensures multiset(Insert(g, s)) == multiset{g} + multiset(s)
  {
    if |s| > 0 && s[0].count > g.count {
      InsertPerm(g, s[1..]);
      assert s == [s[0]] + s[1..];
    }
  }

  lemma {:induction false} InsertSorted(g: Group, s: seq<Group>)
    requires NonIncreasing(s)
    ensures NonIncreasing(Insert(g, s))
  {
    if |s| > 0 && s[0].count > g.count {
      InsertSorted(g, s[1..]);
      InsertPerm(g, s[1..]);
      var t := Insert(g, s[1..]);
      forall x | x in t ensures x.count <= s[0].count {
        assert x in multiset(t);
      }
    }
  }

  /** The groups ordered by count, largest first; equal counts in no
      promised order. */
  function SortByCount(gs: seq<Group>): (r: seq<Group>)
    ensures NonIncreasing(r)
    ensures multiset(r) == multiset(gs)
  {
    if |gs| == 0 then []
    else
      var rest := SortByCount(gs[1..]);
      InsertSorted(gs[0], rest);
      InsertPerm(gs[0], rest);
      assert gs == [gs[0]] + gs[1..];
      Insert(gs[0], rest)
  }

  lemma {:induction false} InsertTotal(g: Group, s: seq<Group>)
    ensures Total(Insert(g, s)) == g.count + Total(s)
  {
    if |s| > 0 && s[0].count > g.count {
      InsertTotal(g, s[1..]);
      assert Insert(g, s)[1..] == Insert(g, s[1..]);
    } else {
      assert Insert(g, s)[1..] == s;
    }
  }

  lemma {:induction false} InsertOccurrences(g: Group, s: seq<Group>, k: GroupKey)
    ensures Occurrences(Insert(g, s), k) == (if g.key == k then 1 else 0) + Occurrences(s, k)
  {
    if |s| > 0 && s[0].count > g.count {
      InsertOccurrences(g, s[1..], k);
      assert Insert(g, s)[1..] == Insert(g, s[1..]);
    } else {
      assert Insert(g, s)[1..] == s;
    }
  }

  /** Sorting keeps the sum of the counts. */
  lemma {:induction false} SortTotal(gs: seq<Group>)
    ensures Total(SortByCount(gs)) == Total(gs)
  {
    if |gs| > 0 {
      SortTotal(gs[1..]);
      InsertTotal(gs[0], SortByCount(gs[1..]));
    }
  }

  /** Sorting keeps the number of groups of each key. */
  lemma {:induction false} SortOccurrences(gs: seq<Group>, k: GroupKey)
    ensures Occurrences(SortByCount(gs), k) == Occurrences(gs, k)
  {
    if |gs| > 0 {
      SortOccurrences(gs[1..], k);
      InsertOccurrences(gs[0], SortByCount(gs[1..]), k);
    }
  }

  // ---------------------------------------------------------------------
  // The report

  /** The grouped counts, sorted by count, largest first. */
  function Report(records: seq<Issue>): (r: seq<Group>)
    ensures NonIncreasing(r)
    ensures Total(r) == |records|
  {
    var gs := GroupCounts(records);
    SortTotal(gs);
    SortByCount(gs)
  }

  /** Every group of the report counts the records with its key, and every
      key of the records has exactly one group. */
  lemma ReportGroups(records: seq<Issue>)
    ensures CountsMatch(Report(records), records)
    ensures OnceEach(Report(records), records)
  {
    var gs := GroupCounts(records);
    var r := SortByCount(gs);
    GroupCountsCorrect(records);
    forall g | g in r ensures 0 < g.count == CountOf(records, g.key) {
      assert g in multiset(r);
    }
    forall k ensures Occurrences(r, k) == (if CountOf(records, k) > 0 then 1 else 0) {
      SortOccurrences(gs, k);
    }
  }

  /** No more groups than records, and none at all exactly when there are
      no records. */
  lemma ReportSize(records: seq<Issue>)
    ensures |Report(records)| <= |records|
    ensures |Report(records)| == 0 <==> |records| == 0
  {
    ReportGroups(records);
    PositiveCounts(Report(records));
  }

  /** Groups of positive count are no more than the sum of the counts. */
  lemma {:induction false} PositiveCounts(gs: seq<Group>)
    requires forall g :: g in gs ==> g.count > 0
    ensures |gs| <= Total(gs)
  {
    if |gs| > 0 {
      assert gs[0] in gs;
      forall g | g in gs[1..] ensures g.count > 0 {
        assert g in gs;
      }
      PositiveCounts(gs[1..]);
    }
  }

  /** Two groups of the report never share a key. */
  lemma ReportKeysDistinct(records: seq<Issue>, i: nat, j: nat)
    requires i < j < |Report(records)|
    ensures Report(records)[i].key != Report(records)[j].key
  {
    var r := Report(records);
    ReportGroups(records);
    if r[i].key == r[j].key {
      OccurrencesTwo(r, i, j);
      assert false;
    }
  }

  lemma {:induction false} OccurrencesTwo(gs: seq<Group>, i: nat, j: nat)
    requires i < j < |gs| && gs[i].key == gs[j].key
    ensures Occurrences(gs, gs[i].key) >= 2
  {
    if i > 0 {
      OccurrencesTwo(gs[1..], i - 1, j - 1);
    } else {
      OccurrencesIn(gs[1..], gs[j]);
    }
  }

  /** Three records, the first and last with the same key: the report holds
      that key with count 2 ahead of the other with count 1. */
  lemma ReportExample(a: Issue, b: Issue, c: Issue)
    requires KeyOf(a) == KeyOf(c) != KeyOf(b)
    ensures Report([a, b, c]) == [Group(KeyOf(a), 2), Group(KeyOf(b), 1)]
  {
    var ka, kb := KeyOf(a), KeyOf(b);
    assert [a, b, c][1..] == [b, c] && [b, c][1..] == [c] && [c][1..] == [];
    assert GroupCounts([c]) == [Group(ka, 1)];
    assert GroupCounts([b, c]) == [Group(ka, 1), Group(kb, 1)] by {
      assert Bump([Group(ka, 1)][1..], kb) == [Group(kb, 1)];
    }
    var gs := [Group(ka, 2), Group(kb, 1)];
    assert GroupCounts([a, b, c]) == gs;
    assert gs[1..] == [Group(kb, 1)] && gs[1..][1..] == [];
    assert SortByCount(gs[1..]) == [Group(kb, 1)];
  }
}
