/**
 * `handleSort`: a click on a column header flips the order held in the
 * header's class and renders a sorted copy of the records under a three-way
 * comparator on the column. `Array.prototype.sort` is stable, so the sort is
 * modelled as a stable insertion sort under that comparator.
 */
module Sort {
  import opened Seqs
  import opened Records

  /** The sortable columns whose values are strings: `id`, `name` and `source_repo`. */
  datatype StringColumn = IdColumn | NameColumn | SourceRepoColumn

  /** `item[column]`. */
  function Key(r: Record, column: StringColumn): string {
    match column
    case IdColumn => r.id
    case NameColumn => r.name
    case SourceRepoColumn => r.sourceRepo
  }

  /** `a < b` on strings: lexicographic by character, a proper prefix coming first. */
  predicate StrLess(a: string, b: string)
    ensures StrLess(a, b) ==> a != b
    ensures a < b ==> StrLess(a, b)
  {
    if a == [] then b != []
    else if b == [] then false
    else if a[0] != b[0] then a[0] < b[0]
    else StrLess(a[1..], b[1..])
  }

  lemma {:induction false} StrLessAsymmetric(a: string, b: string)
    ensures StrLess(a, b) ==> !StrLess(b, a)
  {
    if a != [] && b != [] && a[0] == b[0] {
      StrLessAsymmetric(a[1..], b[1..]);
    }
  }

  lemma {:induction false} StrLessTotal(a: string, b: string)
    ensures a == b || StrLess(a, b) || StrLess(b, a)
  {
    if a != [] && b != [] && a[0] == b[0] {
      StrLessTotal(a[1..], b[1..]);
      if a[1..] == b[1..] {
        assert a == [a[0]] + a[1..] && b == [b[0]] + b[1..];
      }
    }
  }

  lemma {:induction false} StrLessTransitive(a: string, b: string, c: string)
    requires StrLess(a, b) && StrLess(b, c)
    ensures StrLess(a, c)
  {
    if a != [] && a[0] == b[0] && b[0] == c[0] {
      StrLessTransitive(a[1..], b[1..], c[1..]);
    }
  }

  /** The comparator of `handleSort`: 1, -1 or 0, its sign flipped outside the "asc" order. */
  function Compare(a: Record, b: Record, column: StringColumn, order: string): (c: int)
    ensures -1 <= c <= 1
    ensures c > 0 <==> if order == "asc" then StrLess(Key(b, column), Key(a, column)) else StrLess(Key(a, column), Key(b, column))
    ensures c < 0 <==> if order == "asc" then StrLess(Key(a, column), Key(b, column)) else StrLess(Key(b, column), Key(a, column))
  {
    StrLessAsymmetric(Key(a, column), Key(b, column));
    if StrLess(Key(b, column), Key(a, column)) then (if order == "asc" then 1 else -1)
    else if StrLess(Key(a, column), Key(b, column)) then (if order == "asc" then -1 else 1)
    else 0
  }

  /** The comparator answers 0 exactly on equal keys. */
  lemma CompareZero(a: Record, b: Record, column: StringColumn, order: string)
    ensures Compare(a, b, column, order) == 0 <==> Key(a, column) == Key(b, column)
  {
    StrLessTotal(Key(a, column), Key(b, column));
    StrLessAsymmetric(Key(a, column), Key(a, column));
  }

  /** Swapping the arguments flips the comparator's answer. */
  lemma CompareFlip(a: Record, b: Record, column: StringColumn, order: string)
    ensures Compare(b, a, column, order) == -Compare(a, b, column, order)
  {
    StrLessAsymmetric(Key(a, column), Key(b, column));
  }

  /** "Comes no later than" is transitive. */
  lemma CompareTransitive(a: Record, b: Record, c: Record, column: StringColumn, order: string)
    requires Compare(a, b, column, order) <= 0 && Compare(b, c, column, order) <= 0
    ensures Compare(a, c, column, order) <= 0
  {
    var ka, kb, kc := Key(a, column), Key(b, column), Key(c, column);
    StrLessTotal(ka, kb);
    StrLessTotal(kb, kc);
    StrLessAsymmetric(ka, kc);
    if StrLess(ka, kb) && StrLess(kb, kc) {
      StrLessTransitive(ka, kb, kc);
    }
    if StrLess(kb, ka) && StrLess(kc, kb) {
      StrLessTransitive(kc, kb, ka);
    }
  }

  /** The header's next order: "desc" becomes "asc", anything else becomes "desc". */
  function Toggled(order: string): (next: string)
    ensures next == "asc" || next == "desc"
    ensures next == "asc" <==> order == "desc"
  {
    if order == "desc" then "asc" else "desc"
  }

  /** Two clicks bring an "asc" or "desc" header back to where it was. */
  lemma ToggledTwice(order: string)
    requires order == "asc" || order == "desc"
    ensures Toggled(Toggled(order)) == order
  {
  }

  /** Every element comes no later than every element after it. */
  predicate Ordered(s: seq<Record>, column: StringColumn, order: string) {
    forall i, j :: 0 <= i < j < |s| ==> Compare(s[i], s[j], column, order) <= 0
  }

  /** Inserts `x` after every element that comes no later than it. */
  function Insert(sorted: seq<Record>, x: Record, column: StringColumn, order: string): (r: seq<Record>)
    ensures multiset(r) == multiset(sorted) + multiset{x}
  {
    if sorted == [] then [x]
    else
      var init, last := sorted[..|sorted| - 1], sorted[|sorted| - 1];
      assert sorted == init + [last];
      if Compare(last, x, column, order) <= 0 then sorted + [x]
      else Insert(init, x, column, order) + [last]
  }

  /** `[...data].sort(comparator)`: the records inserted one by one, in input order. */
  function SortBy(data: seq<Record>, column: StringColumn, order: string): (sorted: seq<Record>)
    ensures multiset(sorted) == multiset(data)
  {
    if data == [] then []
    else
      assert data == data[..|data| - 1] + [data[|data| - 1]];
      Insert(SortBy(data[..|data| - 1], column, order), data[|data| - 1], column, order)
  }

  lemma {:induction false} InsertOrdered(sorted: seq<Record>, x: Record, column: StringColumn, order: string)
    requires Ordered(sorted, column, order)
    ensures Ordered(Insert(sorted, x, column, order), column, order)
  {
    if sorted != [] {
      var init, last := sorted[..|sorted| - 1], sorted[|sorted| - 1];
      if Compare(last, x, column, order) <= 0 {
        AppendOrdered(sorted, x, column, order);
      } else {
        InsertOrdered(init, x, column, order);
        InsertBeforeLast(sorted, x, column, order);
      }
    }
  }

  /** An element no earlier than the last one can go at the end. */
  lemma AppendOrdered(sorted: seq<Record>, x: Record, column: StringColumn, order: string)
    requires Ordered(sorted, column, order)
    requires sorted != [] && Compare(sorted[|sorted| - 1], x, column, order) <= 0
    ensures Ordered(sorted + [x], column, order)
  {
    var last := sorted[|sorted| - 1];
    forall i | 0 <= i < |sorted|
      ensures Compare(sorted[i], x, column, order) <= 0
    {
      if i < |sorted| - 1 {
        CompareTransitive(sorted[i], last, x, column, order);
      }
    }
  }

  /** An element earlier than the last one goes in front of it, and the last one stays last. */
  lemma InsertBeforeLast(sorted: seq<Record>, x: Record, column: StringColumn, order: string)
    requires Ordered(sorted, column, order)
    requires sorted != [] && Compare(sorted[|sorted| - 1], x, column, order) > 0
    requires Ordered(Insert(sorted[..|sorted| - 1], x, column, order), column, order)
    ensures Ordered(Insert(sorted[..|sorted| - 1], x, column, order) + [sorted[|sorted| - 1]], column, order)
  {
    var init, last := sorted[..|sorted| - 1], sorted[|sorted| - 1];
    var front := Insert(init, x, column, order);
    var r := front + [last];
    CompareFlip(last, x, column, order);
    forall i, j | 0 <= i < j < |r|
      ensures Compare(r[i], r[j], column, order) <= 0
    {
      assert r[i] == front[i];
      if j < |front| {
        assert r[j] == front[j];
      } else {
        assert r[j] == last;
        InsertedFrom(init, x, column, order, i);
        if front[i] != x {
          var k :| 0 <= k < |init| && init[k] == front[i];
          assert sorted[k] == init[k];
        }
      }
    }
  }

  /** Every element of an insertion is the inserted one or one of the sequence's. */
  lemma InsertedFrom(sorted: seq<Record>, x: Record, column: StringColumn, order: string, i: int)
    requires 0 <= i < |Insert(sorted, x, column, order)|
    ensures Insert(sorted, x, column, order)[i] == x || Insert(sorted, x, column, order)[i] in sorted
  {
    var r := Insert(sorted, x, column, order);
    assert r[i] in multiset(r);
  }

  /** The sorted copy is ordered under the comparator. */
  lemma {:induction false} SortByOrdered(data: seq<Record>, column: StringColumn, order: string)
    ensures Ordered(SortBy(data, column, order), column, order)
  {
    if data != [] {
      SortByOrdered(data[..|data| - 1], column, order);
      InsertOrdered(SortBy(data[..|data| - 1], column, order), data[|data| - 1], column, order);
    }
  }

  /** The sort result is a permutation of the records, and its keys run up under "asc" and down otherwise. */
  lemma SortByKeys(data: seq<Record>, column: StringColumn, order: string)
    ensures multiset(SortBy(data, column, order)) == multiset(data)
    ensures var s := SortBy(data, column, order);
      forall i, j :: 0 <= i < j < |s| ==>
        if order == "asc" then !StrLess(Key(s[j], column), Key(s[i], column))
        else !StrLess(Key(s[i], column), Key(s[j], column))
  {
    var s := SortBy(data, column, order);
    SortByOrdered(data, column, order);
    forall i, j | 0 <= i < j < |s|
      ensures if order == "asc" then !StrLess(Key(s[j], column), Key(s[i], column))
        else !StrLess(Key(s[i], column), Key(s[j], column))
    {
      assert Compare(s[i], s[j], column, order) <= 0;
      StrLessAsymmetric(Key(s[j], column), Key(s[i], column));
    }
  }

  /** The records holding a given key in the column. */
  function HasKey(column: StringColumn, key: string): Record -> bool {
    (r: Record) => Key(r, column) == key
  }

  /** Filtering a single element keeps it exactly when the test accepts it. */
  lemma FilterOne(x: Record, keep: Record -> bool)
    ensures Filter([x], keep) == if keep(x) then [x] else []
  {
    assert [x][1..] == [];
  }

  lemma {:induction false} InsertStable(sorted: seq<Record>, x: Record, column: StringColumn, order: string, key: string)
    ensures Filter(Insert(sorted, x, column, order), HasKey(column, key))
      == Filter(sorted, HasKey(column, key)) + Filter([x], HasKey(column, key))
  {
    var keep := HasKey(column, key);
    if sorted == [] {
      assert Insert(sorted, x, column, order) == [] + [x];
    } else {
      var init, last := sorted[..|sorted| - 1], sorted[|sorted| - 1];
      assert sorted == init + [last];
      if Compare(last, x, column, order) <= 0 {
        FilterConcat(sorted, [x], keep);
      } else {
        var front := Insert(init, x, column, order);
        assert Insert(sorted, x, column, order) == front + [last];
        InsertStable(init, x, column, order, key);
        FilterConcat(front, [last], keep);
        FilterConcat(init, [last], keep);
        CompareZero(last, x, column, order);
        FilterOne(x, keep);
        FilterOne(last, keep);
        SwapFiltered(Filter(init, keep), Filter([x], keep), Filter([last], keep));
      }
    }
  }

  lemma SwapFiltered(fi: seq<Record>, fx: seq<Record>, fl: seq<Record>)
    requires fx == [] || fl == []
    ensures fi + fx + fl == fi + fl + fx
  {
  }

  /**
   * The sort is stable: the records sharing a key leave it in the order they
   * came in.
   */
  lemma {:induction false} SortByStable(data: seq<Record>, column: StringColumn, order: string, key: string)
    ensures Filter(SortBy(data, column, order), HasKey(column, key)) == Filter(data, HasKey(column, key))
  {
    if data != [] {
      var init, last := data[..|data| - 1], data[|data| - 1];
      assert data == init + [last];
      FilterConcat(init, [last], HasKey(column, key));
      SortByStable(init, column, order, key);
      InsertStable(SortBy(init, column, order), last, column, order, key);
    }
  }

  /** A sortable column header; `order` is its class attribute. */
  class ColumnHeader {
    const column: StringColumn
    var order: string

    constructor (column: StringColumn, order: string)
      ensures this.column == column && this.order == order
    {
      this.column := column;
      this.order := order;
    }

    /** A click: the class flips to the next order and the records come back sorted under it. */
    method HandleSort(data: seq<Record>) returns (sorted: seq<Record>)
      modifies this
      ensures order == Toggled(old(order))
      ensures sorted == SortBy(data, column, order)
    {
      var newOrder := Toggled(order);
      order := newOrder;
      sorted := SortBy(data, column, newOrder);
    }
  }
}
