/** Key frequency tables: a label-to-count table kept in insertion order (the
    order in which labels were first counted), and the "top N" view the panel
    shows, sorted by descending count. */
module KeyTables {

  /** One row of a table: a key or combo label and how often it occurred. */
  datatype Entry = Entry(key: string, count: nat)

  type KeyTable = seq<Entry>

  /** No label appears in two rows. */
  ghost predicate DistinctKeys(t: KeyTable) {
    forall i, j :: 0 <= i < j < |t| ==> t[i].key != t[j].key
  }

  /** The labels that have a row. */
  function Keys(t: KeyTable): set<string> {
    set i | 0 <= i < |t| :: t[i].key
  }

  /** `table[key] || 0`: the count of a label, 0 for a label without a
      row; a positive count means the label has a row. */
  function Count(t: KeyTable, key: string): (c: nat)
    ensures c > 0 ==> key in Keys(t)
  {
    if t == [] then 0
    else if t[0].key == key then
      assert t[0].key in Keys(t);
      t[0].count
    else
      var c := Count(t[1..], key);
      assert forall j :: 0 <= j < |t| - 1 ==> t[1..][j] == t[j + 1];
      c
  }

  /** `table[key] = (table[key] || 0) + 1`: an existing row is raised in
      place, a new label gets a row of its own at the end. Either way the
      label then has a row, and the table grows by at most one row. */
  function Bump(t: KeyTable, key: string): (r: KeyTable)
    ensures key in Keys(r)
    ensures |t| <= |r| <= |t| + 1
  {
    if t == [] then
      var r := [Entry(key, 1)];
      assert r[0].key == key;
      r
    else if t[0].key == key then
      var r := [Entry(key, t[0].count + 1)] + t[1..];
      assert r[0].key == key;
      r
    else
      var rest := Bump(t[1..], key);
      var r := [t[0]] + rest;
      assert forall j :: 0 <= j < |rest| ==> r[j + 1] == rest[j];
      r
  }

  lemma {:induction false} KeysTail(t: KeyTable)
    requires t != []
    ensures Keys(t) == {t[0].key} + Keys(t[1..])
  {
    forall x | x in Keys(t) ensures x in {t[0].key} + Keys(t[1..]) {
      var i :| 0 <= i < |t| && t[i].key == x;
      if i > 0 {
        assert t[1..][i - 1].key == x;
      }
    }
    forall x | x in Keys(t[1..]) ensures x in Keys(t) {
      var i :| 0 <= i < |t[1..]| && t[1..][i].key == x;
      assert t[i + 1].key == x;
    }
  }

  /** A label without a row counts 0. */
  lemma {:induction false} CountAbsent(t: KeyTable, key: string)
    requires key !in Keys(t)
    ensures Count(t, key) == 0
    decreases |t|
  {
    if t != [] {
      KeysTail(t);
      CountAbsent(t[1..], key);
    }
  }

  /** Bumping raises the bumped label's count by exactly one and leaves
      every other count as it was. */
  lemma {:induction false} BumpCounts(t: KeyTable, key: string)
    ensures Count(Bump(t, key), key) == Count(t, key) + 1
    ensures forall other :: other != key ==> Count(Bump(t, key), other) == Count(t, other)
    decreases |t|
  {
    if t != [] && t[0].key != key {
      BumpCounts(t[1..], key);
      assert Bump(t, key)[1..] == Bump(t[1..], key);
    }
  }

  /** Bumping adds only the bumped label, grows the table only for a new
      label, and keeps every existing row in its place. */
  lemma {:induction false} BumpKeys(t: KeyTable, key: string)
    ensures Keys(Bump(t, key)) == Keys(t) + {key}
    ensures |Bump(t, key)| == if key in Keys(t) then |t| else |t| + 1
    ensures forall i :: 0 <= i < |t| ==> Bump(t, key)[i].key == t[i].key
    decreases |t|
  {
    var b := Bump(t, key);
    KeysTail(b);
    if t != [] {
      KeysTail(t);
      if t[0].key == key {
        assert b[1..] == t[1..];
      } else {
        BumpKeys(t[1..], key);
        assert b[1..] == Bump(t[1..], key);
      }
    }
  }

  /** A row whose label the rest lacks can go in front. */
  lemma DistinctCons(e: Entry, s: KeyTable)
    requires DistinctKeys(s) && e.key !in Keys(s)
    ensures DistinctKeys([e] + s)
  {
    var r := [e] + s;
    forall i, j | 0 <= i < j < |r| ensures r[i].key != r[j].key {
      assert r[j] == s[j - 1];
      if i == 0 {
        assert s[j - 1].key in Keys(s);
      } else {
        assert r[i] == s[i - 1];
      }
    }
  }

  /** Bumping keeps the labels distinct. */
  lemma {:induction false} BumpDistinct(t: KeyTable, key: string)
    requires DistinctKeys(t)
    ensures DistinctKeys(Bump(t, key))
    decreases |t|
  {
    if t != [] {
      var tail := t[1..];
      assert DistinctKeys(tail) by {
        forall i, j | 0 <= i < j < |tail| ensures tail[i].key != tail[j].key {
          assert tail[i] == t[i + 1] && tail[j] == t[j + 1];
        }
      }
      assert t[0].key !in Keys(tail) by {
        forall p | 0 <= p < |tail| ensures tail[p].key != t[0].key {
          assert tail[p] == t[p + 1];
        }
      }
      if t[0].key == key {
        DistinctCons(Entry(key, t[0].count + 1), tail);
      } else {
        BumpDistinct(tail, key);
        BumpKeys(tail, key);
        DistinctCons(t[0], Bump(tail, key));
      }
    }
  }

  /** Everything a bump promises, for a table whose labels are distinct. */
  lemma BumpSpec(t: KeyTable, key: string)
    requires DistinctKeys(t)
    ensures Count(Bump(t, key), key) == Count(t, key) + 1
    ensures forall other :: other != key ==> Count(Bump(t, key), other) == Count(t, other)
    ensures DistinctKeys(Bump(t, key))
    ensures Keys(Bump(t, key)) == Keys(t) + {key}
    ensures |Bump(t, key)| == if key in Keys(t) then |t| else |t| + 1
    ensures forall i :: 0 <= i < |t| ==> Bump(t, key)[i].key == t[i].key
  {
    BumpCounts(t, key);
    BumpKeys(t, key);
    BumpDistinct(t, key);
  }

  /** Counts never increase along the sequence. */
  predicate NonIncreasing(s: seq<Entry>) {
    forall i, j :: 0 <= i < j < |s| ==> s[i].count >= s[j].count
  }

  /** Inserts `e` before the first entry whose count does not exceed its
      own, so that among equal counts earlier insertions stay first. */
  function Insert(e: Entry, s: seq<Entry>): (r: seq<Entry>)
    ensures |r| == |s| + 1
  {
    if s == [] || s[0].count <= e.count then [e] + s
    else [s[0]] + Insert(e, s[1..])
  }

  /** Stable sort by descending count (the order in which the table's rows
      are enumerated is kept among equal counts). */
  function SortDesc(t: seq<Entry>): (r: seq<Entry>)
    ensures |r| == |t|
  {
    if t == [] then [] else Insert(t[0], SortDesc(t[1..]))
  }

  /** An entry can go in front of a sorted sequence whose counts do not
      exceed its own. */
  lemma NonIncreasingCons(x: Entry, s: seq<Entry>)
    requires NonIncreasing(s)
    requires forall y :: y in s ==> y.count <= x.count
    ensures NonIncreasing([x] + s)
  {
    var r := [x] + s;
    forall i, j | 0 <= i < j < |r| ensures r[i].count >= r[j].count {
      assert r[j] == s[j - 1];
      if i > 0 {
        assert r[i] == s[i - 1];
      }
    }
  }

  /** Insertion adds the one entry and nothing else. */
  lemma {:induction false} InsertPerm(e: Entry, s: seq<Entry>)
    ensures multiset(Insert(e, s)) == multiset(s) + multiset{e}
    ensures forall x :: x in Insert(e, s) <==> x == e || x in s
    decreases |s|
  {
    if s == [] || s[0].count <= e.count {
      assert multiset([e] + s) == multiset{e} + multiset(s);
    } else {
      InsertPerm(e, s[1..]);
      assert s == [s[0]] + s[1..];
      assert multiset(s) == multiset{s[0]} + multiset(s[1..]);
      assert multiset([s[0]] + Insert(e, s[1..])) == multiset{s[0]} + multiset(Insert(e, s[1..]));
    }
  }

  /** Insertion into a sorted sequence keeps it sorted. */
  lemma {:induction false} InsertSorted(e: Entry, s: seq<Entry>)
    requires NonIncreasing(s)
    ensures NonIncreasing(Insert(e, s))
    decreases |s|
  {
    if s != [] && s[0].count > e.count {
      var tail := s[1..];
      assert NonIncreasing(tail) by {
        forall i, j | 0 <= i < j < |tail| ensures tail[i].count >= tail[j].count {
          assert tail[i] == s[i + 1] && tail[j] == s[j + 1];
        }
      }
      InsertSorted(e, tail);
      InsertPerm(e, tail);
      forall y | y in Insert(e, tail) ensures y.count <= s[0].count {
        if y != e {
          var p :| 0 <= p < |tail| && tail[p] == y;
          assert s[p + 1] == y;
        }
      }
      NonIncreasingCons(s[0], Insert(e, tail));
    } else {
      NonIncreasingCons(e, s);
    }
  }

  /** The sort returns the same rows. */
  lemma {:induction false} SortDescPerm(t: seq<Entry>)
    ensures multiset(SortDesc(t)) == multiset(t)
    decreases |t|
  {
    if t != [] {
      SortDescPerm(t[1..]);
      InsertPerm(t[0], SortDesc(t[1..]));
      assert t == [t[0]] + t[1..];
      assert multiset(t) == multiset{t[0]} + multiset(t[1..]);
    }
  }

  /** The sort returns non-increasing counts. */
  lemma {:induction false} SortDescSorted(t: seq<Entry>)
    ensures NonIncreasing(SortDesc(t))
    decreases |t|
  {
    if t != [] {
      SortDescSorted(t[1..]);
      InsertSorted(t[0], SortDesc(t[1..]));
    }
  }

  /** The sort returns the same rows, with non-increasing counts. */
  lemma SortDescSpec(t: seq<Entry>)
    ensures NonIncreasing(SortDesc(t))
    ensures multiset(SortDesc(t)) == multiset(t)
    ensures |SortDesc(t)| == |t|
  {
    SortDescPerm(t);
    SortDescSorted(t);
  }

  /** `entries.sort(by descending count).slice(0, n)`: n rows, or the whole
      table when it has fewer. */
  function Top(t: KeyTable, n: nat): (r: seq<Entry>)
    ensures |r| == if |t| <= n then |t| else n
  {
    var sorted := SortDesc(t);
    if |sorted| <= n then sorted else sorted[..n]
  }

  /** The top-n view takes its rows from the table, each row at most as
      often as the table has it. */
  lemma TopFromTable(t: KeyTable, n: nat)
    ensures multiset(Top(t, n)) <= multiset(t)
    ensures forall e :: e in Top(t, n) ==> e in t
  {
    var sorted := SortDesc(t);
    SortDescSpec(t);
    var r := Top(t, n);
    assert sorted == r + sorted[|r|..];
    assert multiset(sorted) == multiset(r) + multiset(sorted[|r|..]);
    forall e | e in r ensures e in t {
      assert e in sorted;
      assert e in multiset(sorted);
    }
  }

  /** No row left out of the top-n view outcounts a row in it. */
  lemma TopOutranks(t: KeyTable, n: nat)
    ensures forall e, x :: e in t && e !in Top(t, n) && x in Top(t, n) ==> x.count >= e.count
  {
    var sorted := SortDesc(t);
    SortDescSpec(t);
    var r := Top(t, n);
    forall e, x | e in t && e !in r && x in r ensures x.count >= e.count {
      assert e in multiset(sorted);
      var p :| 0 <= p < |sorted| && sorted[p] == e;
      var q :| 0 <= q < |r| && r[q] == x;
      assert sorted[q] == x;
      assert p >= |r|;
    }
  }

  /** The top-n view has at most n rows, all taken from the table and none
      more often than the table has it, in non-increasing count order, and
      no row left out of it outcounts a row in it. */
  lemma TopSpec(t: KeyTable, n: nat)
    ensures |Top(t, n)| == if |t| <= n then |t| else n
    ensures multiset(Top(t, n)) <= multiset(t)
    ensures NonIncreasing(Top(t, n))
    ensures forall e :: e in Top(t, n) ==> e in t
    ensures forall e, x :: e in t && e !in Top(t, n) && x in Top(t, n) ==> x.count >= e.count
  {
    SortDescSpec(t);
    TopFromTable(t, n);
    TopOutranks(t, n);
  }

  /** The panel's example: {A:5, B:9, C:9} lists B and C, in that order,
      before A. */
  lemma TopExample()
    ensures Top([Entry("A", 5), Entry("B", 9), Entry("C", 9)], 15)
            == [Entry("B", 9), Entry("C", 9), Entry("A", 5)]
  {
  }
}
