/**
 * The data side of `renderMatrix`: bucketing the records by tactic in the
 * fixed tactic order, choosing which columns are drawn, and the deep link of
 * a matrix cell.
 */
module Matrix {
  import opened Seqs
  import opened Text
  import opened Records

  /** `glblOrderedTactics`: the matrix columns, in display order. */
  const OrderedTactics: seq<string> := [
    "Initial Access",
    "Execution",
    "Persistence",
    "Privilege Escalation",
    "Defense Evasion",
    "Credential Access",
    "Discovery",
    "Lateral Movement",
    "Collection",
    "Command and Control",
    "Inhibit Response Function",
    "Inhibit Process Control",
    "Exfiltration",
    "Impact"
  ]

  lemma TacticsDistinct()
    ensures |OrderedTactics| == 14 && NoDuplicates(OrderedTactics)
  {
  }

  /**
   * Every tactic the records list is a matrix column. Without it `indexOf`
   * yields -1 and `matrix[-1].push` faults.
   */
  predicate TacticsKnown(records: seq<Record>) {
    forall r, t :: r in records && t in r.tactics ==> t in OrderedTactics
  }

  /** The bucket of `tactic`: each record once per time it lists the tactic, in input order. */
  function Bucket(records: seq<Record>, tactic: string): seq<Record> {
    if records == [] then []
    else
      var last := records[|records| - 1];
      Bucket(records[..|records| - 1], tactic) + Copies(last, Count(last.tactics, tactic))
  }

  /** The bucketing loop of `renderMatrix`: one array per tactic, each record pushed once per tactic it lists. */
  method BuildMatrix(records: seq<Record>) returns (matrix: array<seq<Record>>)
    requires TacticsKnown(records)
    ensures fresh(matrix) && matrix.Length == |OrderedTactics|
    ensures forall b :: 0 <= b < matrix.Length ==> matrix[b] == Bucket(records, OrderedTactics[b])
  {
    matrix := new seq<Record>[|OrderedTactics|];
    for b := 0 to matrix.Length
      invariant forall c :: 0 <= c < b ==> matrix[c] == []
    {
      matrix[b] := [];
    }
    TacticsDistinct();
    for i := 0 to |records|
      invariant forall b :: 0 <= b < matrix.Length ==> matrix[b] == Bucket(records[..i], OrderedTactics[b])
    {
      BucketStep(records, i);
      PushRecord(matrix, OrderedTactics, records[i]);
    }
    assert records[..|records|] == records;
  }

  /** One step of the bucketing: the next record goes to the end of each of its tactics' buckets. */
  lemma BucketStep(records: seq<Record>, i: nat)
    requires i < |records|
    ensures forall t :: Bucket(records[..i + 1], t) == Bucket(records[..i], t) + Copies(records[i], Count(records[i].tactics, t))
  {
    assert records[..i + 1][..i] == records[..i];
  }

  /**
   * The inner loop: push `trr` onto the bucket of each tactic it lists, in
   * list order; `columns` is the tactic order the buckets follow.
   */
  method PushRecord(matrix: array<seq<Record>>, columns: seq<string>, trr: Record)
    requires matrix.Length == |columns| && NoDuplicates(columns)
    requires forall t :: t in trr.tactics ==> t in columns
    modifies matrix
    ensures forall b :: 0 <= b < matrix.Length ==>
      matrix[b] == old(matrix[b]) + Copies(trr, Count(trr.tactics, columns[b]))
  {
    for j := 0 to |trr.tactics|
      invariant forall b :: 0 <= b < matrix.Length ==>
        matrix[b] == old(matrix[b]) + Copies(trr, Count(trr.tactics[..j], columns[b]))
    {
      var tactic := trr.tactics[j];
      var column := FirstIndexOf(columns, tactic);
      ghost var before := matrix[..];
      matrix[column] := matrix[column] + [trr];
      forall b | 0 <= b < matrix.Length
        ensures matrix[b] == old(matrix[b]) + Copies(trr, Count(trr.tactics[..j + 1], columns[b]))
      {
        assert trr.tactics[..j + 1] == trr.tactics[..j] + [tactic];
        CountAppendOne(trr.tactics[..j], tactic, columns[b]);
        if b != column {
          assert matrix[b] == before[b];
        }
      }
    }
    assert trr.tactics[..|trr.tactics|] == trr.tactics;
  }

  /** The columns `renderMatrix` draws: the non-empty buckets, in tactic order. */
  method VisibleColumns(matrix: array<seq<Record>>) returns (columns: seq<nat>)
    ensures forall k :: 0 <= k < |columns| ==> columns[k] < matrix.Length && matrix[columns[k]] != []
    ensures forall b :: 0 <= b < matrix.Length && matrix[b] != [] ==> b in columns
    ensures forall k, l :: 0 <= k < l < |columns| ==> columns[k] < columns[l]
  {
    columns := [];
    for i := 0 to matrix.Length
      invariant forall k :: 0 <= k < |columns| ==> columns[k] < i && matrix[columns[k]] != []
      invariant forall b :: 0 <= b < i && matrix[b] != [] ==> b in columns
      invariant forall k, l :: 0 <= k < l < |columns| ==> columns[k] < columns[l]
    {
      if |matrix[i]| > 0 {
        columns := columns + [i];
      }
    }
  }

  /** A record sits in the bucket of a tactic exactly when it lists that tactic. */
  lemma {:induction false} BucketMembership(records: seq<Record>, tactic: string, r: Record)
    ensures r in Bucket(records, tactic) <==> r in records && tactic in r.tactics
  {
    if records != [] {
      var init, last := records[..|records| - 1], records[|records| - 1];
      BucketMembership(init, tactic, r);
      CountPositive(last.tactics, tactic);
      assert records == init + [last];
    }
  }

  function ListsTactic(tactic: string): Record -> bool {
    (r: Record) => tactic in r.tactics
  }

  /**
   * When no record lists a tactic twice (true of every merged entry built
   * from two or more variants), a bucket is exactly the records listing the
   * tactic, each once, in input order.
   */
  lemma {:induction false} BucketIsFilter(records: seq<Record>, tactic: string)
    requires forall k :: 0 <= k < |records| ==> NoDuplicates(records[k].tactics)
    ensures Bucket(records, tactic) == Filter(records, ListsTactic(tactic))
  {
    if records != [] {
      var init, last := records[..|records| - 1], records[|records| - 1];
      BucketIsFilter(init, tactic);
      assert records == init + [last];
      FilterConcat(init, [last], ListsTactic(tactic));
      assert [last][1..] == [];
      if tactic in last.tactics {
        CountOfNoDuplicates(last.tactics, tactic);
      } else {
        CountPositive(last.tactics, tactic);
      }
    }
  }

  /** The link of a matrix cell: the lower-cased id, plus the first platform's directory outside the "all" view. */
  function MatrixLink(r: Record, selected: string, registry: Registry): (link: string)
    ensures Lower(r.id) <= link
    ensures selected == "all" <==> |link| == |r.id|
    ensures selected != "all" ==> link[|r.id|] == '/' && link[|r.id| + 1..] == PlatformDir(registry, r.platforms)
  {
    if selected == "all" then Lower(r.id)
    else Lower(r.id) + "/" + PlatformDir(registry, r.platforms)
  }

  /** The address a cell opens: the record's base URL, `reports/`, then the link. */
  function ReportUrl(r: Record, link: string): (url: string)
    ensures r.baseUrl + "reports/" <= url && url[|r.baseUrl| + 8..] == link
  {
    r.baseUrl + "reports/" + link
  }

  /**
   * The link names the report unambiguously: when neither the id nor the
   * platform directory contains `/`, splitting the link on `/` gives back the
   * lower-cased id, followed by the directory exactly when a platform is selected.
   */
  lemma MatrixLinkParts(r: Record, selected: string, registry: Registry)
    requires '/' !in r.id && '/' !in PlatformDir(registry, r.platforms)
    ensures Split(MatrixLink(r, selected, registry), '/') ==
      if selected == "all" then [Lower(r.id)] else [Lower(r.id), PlatformDir(registry, r.platforms)]
  {
    LowerIdempotent(r.id);
    assert !IsLetter('/');
    var dir := PlatformDir(registry, r.platforms);
    if selected == "all" {
      SplitNoSeparator(Lower(r.id), '/');
    } else {
      assert Join([Lower(r.id), dir], '/') == Lower(r.id) + "/" + dir;
      SplitJoin([Lower(r.id), dir], '/');
    }
  }
}
