/**
 * `filterData` of the matrix page: the "all platforms" reconciler that merges
 * the platform variants of each technique into one entry, and the platform
 * filter. `MergedView` states declaratively what the reconciler builds; the
 * method `MergeAllPlatforms` is the source's loop, proved to build it.
 */
module Reconcile {
  import opened Seqs
  import opened Records

  /** The three list-valued fields a merge unions. */
  datatype ListField = Tactics | Platforms | ExternalIds

  function Attr(r: Record, f: ListField): seq<string> {
    match f
    case Tactics => r.tactics
    case Platforms => r.platforms
    case ExternalIds => r.externalIds
  }

  /** The technique identity of every record, in input order. */
  function Prefixes(data: seq<Record>): (ps: seq<string>)
    ensures |ps| == |data|
  {
    seq(|data|, j requires 0 <= j < |data| => TechPrefix(data[j].id))
  }

  function HasPrefix(p: string): Record -> bool {
    (r: Record) => TechPrefix(r.id) == p
  }

  /** The platform variants of technique `p`, in input order. */
  function Group(data: seq<Record>, p: string): seq<Record> {
    Filter(data, HasPrefix(p))
  }

  /** The concatenation of field `f` over the records of `g`, in order. */
  function Gathered(g: seq<Record>, f: ListField): seq<string> {
    if g == [] then [] else Gathered(g[..|g| - 1], f) + Attr(g[|g| - 1], f)
  }

  /**
   * Field `f` of a merged entry: the lone variant's list as it is, or the
   * de-duplicated concatenation once a second variant has been merged.
   */
  function Combined(g: seq<Record>, f: ListField): seq<string>
    requires g != []
  {
    if |g| == 1 then Attr(g[0], f) else Distinct(Gathered(g, f))
  }

  lemma GroupNonEmpty(data: seq<Record>, p: string)
    requires p in Prefixes(data)
    ensures Group(data, p) != []
  {
    var j :| 0 <= j < |data| && Prefixes(data)[j] == p;
    assert data[j] in data && HasPrefix(p)(data[j]);
  }

  /**
   * The merged entry of technique `p`: id `p`; name and provenance of the
   * first variant; tactics, platforms and external ids combined; no procedures.
   */
  function MergedEntry(data: seq<Record>, p: string): Record
    requires p in Prefixes(data)
  {
    GroupNonEmpty(data, p);
    var g := Group(data, p);
    Record(p, g[0].name, Combined(g, Tactics), Combined(g, Platforms), Combined(g, ExternalIds),
           None, g[0].baseUrl, g[0].sourceRepo)
  }

  /** The "all platforms" view: one merged entry per technique, in order of first occurrence. */
  function MergedView(data: seq<Record>): seq<Record> {
    var ids := Distinct(Prefixes(data));
    seq(|ids|, k requires 0 <= k < |ids| => MergedEntry(data, ids[k]))
  }

  function Ids(entries: seq<Record>): (ids: seq<string>)
    ensures |ids| == |entries| && forall k :: 0 <= k < |entries| ==> ids[k] == entries[k].id
  {
    seq(|entries|, k requires 0 <= k < |entries| => entries[k].id)
  }

  /** `filteredData.find(item => item.id == techID)`: the first entry with that id. */
  function IndexOfId(entries: seq<Record>, id: string): (k: nat)
    requires id in Ids(entries)
    ensures k < |entries| && entries[k].id == id
    ensures forall j :: 0 <= j < k ==> entries[j].id != id
  {
    FirstIndexOf(Ids(entries), id)
  }

  /** The `shortEntry` built for the first variant of a technique. */
  function Shorten(trr: Record, techId: string): (entry: Record)
    ensures entry == trr.(id := techId, procedures := None)
  {
    Record(techId, trr.name, trr.tactics, trr.platforms, trr.externalIds, None, trr.baseUrl, trr.sourceRepo)
  }

  /** A later variant merged into an existing entry: the three lists concatenated and de-duplicated. */
  function Absorb(entry: Record, trr: Record): (merged: Record)
    ensures merged.(tactics := entry.tactics, platforms := entry.platforms, externalIds := entry.externalIds) == entry
    ensures forall f: ListField :: NoDuplicates(Attr(merged, f))
    ensures forall f: ListField, t :: t in Attr(merged, f) <==> t in Attr(entry, f) || t in Attr(trr, f)
  {
    entry.(tactics := Distinct(entry.tactics + trr.tactics),
           platforms := Distinct(entry.platforms + trr.platforms),
           externalIds := Distinct(entry.externalIds + trr.externalIds))
  }

  // ---------------------------------------------------------------------------
  // How the view changes when one more record is appended to the input

  lemma PrefixesAppend(d: seq<Record>, x: Record)
    ensures Prefixes(d + [x]) == Prefixes(d) + [TechPrefix(x.id)]
  {
  }

  lemma GroupAppend(d: seq<Record>, x: Record, q: string)
    ensures Group(d + [x], q) == Group(d, q) + (if TechPrefix(x.id) == q then [x] else [])
  {
    FilterConcat(d, [x], HasPrefix(q));
    assert [x][1..] == [];
  }

  lemma CombinedAppend(g: seq<Record>, x: Record, f: ListField)
    requires g != []
    ensures Combined(g + [x], f) == Distinct(Combined(g, f) + Attr(x, f))
  {
    assert (g + [x])[..|g|] == g;
    assert Gathered(g + [x], f) == Gathered(g, f) + Attr(x, f);
    if |g| == 1 {
      assert g[..0] == [];
      assert Gathered(g[..0], f) == [];
      assert Gathered(g, f) == Attr(g[0], f);
      assert Combined(g + [x], f) == Distinct(Gathered(g + [x], f));
    } else {
      DistinctAbsorbs(Gathered(g, f), Attr(x, f));
    }
  }

  lemma MergedEntryOther(d: seq<Record>, x: Record, q: string)
    requires q in Prefixes(d) && q != TechPrefix(x.id)
    ensures q in Prefixes(d + [x])
    ensures MergedEntry(d + [x], q) == MergedEntry(d, q)
  {
    PrefixesAppend(d, x);
    GroupAppend(d, x, q);
    assert Group(d + [x], q) == Group(d, q);
  }

  lemma MergedEntryAbsorb(d: seq<Record>, x: Record)
    requires TechPrefix(x.id) in Prefixes(d)
    ensures TechPrefix(x.id) in Prefixes(d + [x])
    ensures MergedEntry(d + [x], TechPrefix(x.id)) == Absorb(MergedEntry(d, TechPrefix(x.id)), x)
  {
    var p := TechPrefix(x.id);
    PrefixesAppend(d, x);
    GroupAppend(d, x, p);
    GroupNonEmpty(d, p);
    var g := Group(d, p);
    assert (g + [x])[0] == g[0];
    CombinedAppend(g, x, Tactics);
    CombinedAppend(g, x, Platforms);
    CombinedAppend(g, x, ExternalIds);
  }

  lemma MergedEntryNew(d: seq<Record>, x: Record)
    requires TechPrefix(x.id) !in Prefixes(d)
    ensures TechPrefix(x.id) in Prefixes(d + [x])
    ensures MergedEntry(d + [x], TechPrefix(x.id)) == Shorten(x, TechPrefix(x.id))
  {
    var p := TechPrefix(x.id);
    PrefixesAppend(d, x);
    GroupAppend(d, x, p);
    forall j | 0 <= j < |d| ensures !HasPrefix(p)(d[j]) {
      assert Prefixes(d)[j] == TechPrefix(d[j].id);
    }
    FilterKeepsNone(d, HasPrefix(p));
    assert Group(d + [x], p) == [x];
  }

  lemma MergeStepNew(d: seq<Record>, x: Record)
    requires TechPrefix(x.id) !in Prefixes(d)
    ensures MergedView(d + [x]) == MergedView(d) + [Shorten(x, TechPrefix(x.id))]
  {
    var p := TechPrefix(x.id);
    var ids := Distinct(Prefixes(d));
    PrefixesAppend(d, x);
    DistinctAppendOne(Prefixes(d), p);
    assert Distinct(Prefixes(d + [x])) == ids + [p];
    var lhs, rhs := MergedView(d + [x]), MergedView(d) + [Shorten(x, p)];
    assert |lhs| == |rhs|;
    forall k | 0 <= k < |lhs| ensures lhs[k] == rhs[k] {
      if k < |ids| {
        MergedEntryOther(d, x, ids[k]);
      } else {
        MergedEntryNew(d, x);
      }
    }
  }

  lemma MergeStepSeen(d: seq<Record>, x: Record, j: nat)
    requires j < |MergedView(d)| && MergedView(d)[j].id == TechPrefix(x.id)
    ensures MergedView(d + [x]) == MergedView(d)[j := Absorb(MergedView(d)[j], x)]
  {
    var p := TechPrefix(x.id);
    var ids := Distinct(Prefixes(d));
    assert ids[j] == p;
    PrefixesAppend(d, x);
    DistinctAppendOne(Prefixes(d), p);
    assert Distinct(Prefixes(d + [x])) == ids;
    var lhs, rhs := MergedView(d + [x]), MergedView(d)[j := Absorb(MergedView(d)[j], x)];
    assert |lhs| == |rhs|;
    forall k | 0 <= k < |lhs| ensures lhs[k] == rhs[k] {
      if k == j {
        MergedEntryAbsorb(d, x);
      } else {
        MergedEntryOther(d, x, ids[k]);
      }
    }
  }

  lemma MergedViewIds(d: seq<Record>)
    ensures Ids(MergedView(d)) == Distinct(Prefixes(d))
  {
  }

  // ---------------------------------------------------------------------------
  // The source's loops

  /**
   * `filterData("all")`: walks the records keeping a `seen` set of technique
   * ids in step with the output list; the first variant of a technique adds
   * a short entry, every later one is merged into that entry.
   */
  method MergeAllPlatforms(data: seq<Record>) returns (merged: seq<Record>)
    ensures merged == MergedView(data)
  {
    merged := [];
    var seen: set<string> := {};
    for i := 0 to |data|
      invariant merged == MergedView(data[..i])
      invariant forall q :: q in seen <==> q in Ids(merged)
    {
      var trr := data[i];
      assert data[..i + 1] == data[..i] + [trr];
      MergedViewIds(data[..i]);
      var techId := TechPrefix(trr.id);
      if techId in seen {
        var j := IndexOfId(merged, techId);
        MergeStepSeen(data[..i], trr, j);
        var entry := Absorb(merged[j], trr);
        assert Ids(merged[j := entry]) == Ids(merged);
        merged := merged[j := entry];
      } else {
        MergeStepNew(data[..i], trr);
        assert Ids(merged + [Shorten(trr, techId)]) == Ids(merged) + [techId];
        merged := merged + [Shorten(trr, techId)];
        seen := seen + {techId};
      }
    }
    assert data[..|data|] == data;
  }

  function OnPlatform(platform: string): Record -> bool {
    (r: Record) => platform in r.platforms
  }

  /** `filterData(platform)` for a platform key: the records listing it, in order. */
  method FilterPlatform(data: seq<Record>, platform: string) returns (filtered: seq<Record>)
    ensures filtered == Filter(data, OnPlatform(platform))
    ensures IsSubsequence(filtered, data)
    ensures forall r :: r in filtered <==> r in data && platform in r.platforms
  {
    filtered := [];
    for i := 0 to |data|
      invariant filtered == Filter(data[..i], OnPlatform(platform))
    {
      assert data[..i + 1] == data[..i] + [data[i]];
      FilterConcat(data[..i], [data[i]], OnPlatform(platform));
      assert [data[i]][1..] == [];
      if platform in data[i].platforms {
        filtered := filtered + [data[i]];
      }
    }
    assert data[..|data|] == data;
    FilterIsSubsequence(data, OnPlatform(platform));
  }

  /** `filterData(filterValue)`: the merged view for "all", the platform filter otherwise. */
  method FilterData(data: seq<Record>, filterValue: string) returns (view: seq<Record>)
    ensures filterValue == "all" ==> view == MergedView(data)
    ensures filterValue != "all" ==> view == Filter(data, OnPlatform(filterValue))
  {
    if filterValue == "all" {
      view := MergeAllPlatforms(data);
      return;
    }
    view := FilterPlatform(data, filterValue);
  }

  // ---------------------------------------------------------------------------
  // What the "all platforms" view promises

  /**
   * One entry per distinct technique identity: every entry's id is the
   * identity of some input record, every identity has an entry, no two
   * entries share an id, so there are never more entries than records.
   */
  lemma MergedViewOnePerTechnique(d: seq<Record>)
    ensures |MergedView(d)| <= |d|
    ensures forall k :: 0 <= k < |MergedView(d)| ==> MergedView(d)[k].id in Prefixes(d)
    ensures forall p :: p in Prefixes(d) ==> p in Ids(MergedView(d))
    ensures NoDuplicates(Ids(MergedView(d)))
  {
    MergedViewIds(d);
  }

  /** Entries appear in the order in which their technique first occurs in the input. */
  lemma MergedViewOrder(d: seq<Record>)
    ensures forall i, j :: 0 <= i < j < |MergedView(d)| ==>
      FirstIndexOf(Prefixes(d), MergedView(d)[i].id) < FirstIndexOf(Prefixes(d), MergedView(d)[j].id)
  {
    DistinctFirstOccurrenceOrder(Prefixes(d));
  }

  lemma {:induction false} GatheredMembership(g: seq<Record>, f: ListField, t: string)
    ensures t in Gathered(g, f) <==> exists r :: r in g && t in Attr(r, f)
  {
    if g != [] {
      var init, last := g[..|g| - 1], g[|g| - 1];
      GatheredMembership(init, f, t);
      assert g == init + [last];
      if t in Gathered(g, f) && t !in Attr(last, f) {
        var r :| r in init && t in Attr(r, f);
        assert r in g;
      }
      if exists r :: r in g && t in Attr(r, f) {
        var r :| r in g && t in Attr(r, f);
        if r != last {
          assert r in init;
        }
      }
    }
  }

  lemma CombinedMembership(g: seq<Record>, f: ListField, t: string)
    requires g != []
    ensures t in Combined(g, f) <==> exists r :: r in g && t in Attr(r, f)
  {
    GatheredMembership(g, f, t);
    if |g| == 1 {
      if exists r :: r in g && t in Attr(r, f) {
        var r :| r in g && t in Attr(r, f);
        assert r == g[0];
      }
    }
  }

  /**
   * A merged entry's tactics, platforms and external ids hold exactly the
   * values that some variant of the technique lists; once a second variant
   * has been merged each list is free of duplicates, and a lone variant's
   * list is passed on unchanged.
   */
  lemma MergedEntryUnion(d: seq<Record>, p: string, f: ListField)
    requires p in Prefixes(d)
    ensures forall t :: t in Attr(MergedEntry(d, p), f) <==>
      exists r :: r in d && TechPrefix(r.id) == p && t in Attr(r, f)
    ensures |Group(d, p)| >= 2 ==> NoDuplicates(Attr(MergedEntry(d, p), f))
    ensures |Group(d, p)| == 1 ==> Attr(MergedEntry(d, p), f) == Attr(d[FirstIndexOf(Prefixes(d), p)], f)
  {
    GroupNonEmpty(d, p);
    GroupHead(d, p);
    var g := Group(d, p);
    assert Attr(MergedEntry(d, p), f) == Combined(g, f);
    forall t ensures t in Combined(g, f) <==> exists r :: r in d && TechPrefix(r.id) == p && t in Attr(r, f) {
      CombinedMembership(g, f, t);
      if exists r :: r in d && TechPrefix(r.id) == p && t in Attr(r, f) {
        var r :| r in d && TechPrefix(r.id) == p && t in Attr(r, f);
        assert HasPrefix(p)(r);
        assert r in g;
      }
    }
  }

  /** The first variant of `p` in the input heads its group. */
  lemma {:induction false} GroupHead(d: seq<Record>, p: string)
    requires p in Prefixes(d)
    ensures Group(d, p) != [] && Group(d, p)[0] == d[FirstIndexOf(Prefixes(d), p)]
  {
    assert Prefixes(d)[0] == TechPrefix(d[0].id);
    if TechPrefix(d[0].id) != p {
      assert Prefixes(d)[1..] == Prefixes(d[1..]);
      GroupHead(d[1..], p);
    }
  }

  /**
   * Display fields come from the first variant of the technique and are never
   * overwritten by later ones; the id is the technique identity and the
   * procedures are dropped.
   */
  lemma MergedEntryDisplay(d: seq<Record>, p: string)
    requires p in Prefixes(d)
    ensures var e, first := MergedEntry(d, p), d[FirstIndexOf(Prefixes(d), p)];
      && e.id == p
      && e.name == first.name
      && e.baseUrl == first.baseUrl
      && e.sourceRepo == first.sourceRepo
      && e.procedures == None
  {
    GroupHead(d, p);
  }

  /** Every id in the view is a technique identity, so it contains no `.`. */
  lemma MergedViewPlainIds(d: seq<Record>)
    ensures forall k :: 0 <= k < |MergedView(d)| ==> TechPrefix(MergedView(d)[k].id) == MergedView(d)[k].id
  {
    var ids := Distinct(Prefixes(d));
    forall k | 0 <= k < |ids| ensures TechPrefix(ids[k]) == ids[k] {
      assert ids[k] in ids;
      assert ids[k] in Prefixes(d);
      var j :| 0 <= j < |d| && Prefixes(d)[j] == ids[k];
      assert ids[k] == TechPrefix(d[j].id);
      TechPrefixOfPlainId(ids[k]);
    }
  }

  /** In a list of entries with distinct plain ids and no procedures, merging entry `k` reproduces it. */
  lemma MergedEntryOfLoneEntry(m: seq<Record>, k: nat)
    requires k < |m| && m[k].procedures == None
    requires forall j :: 0 <= j < |m| ==> TechPrefix(m[j].id) == m[j].id
    requires NoDuplicates(Ids(m))
    ensures m[k].id in Prefixes(m)
    ensures MergedEntry(m, m[k].id) == m[k]
  {
    var p := m[k].id;
    assert Prefixes(m)[k] == p;
    forall j | 0 <= j < |m| && j != k ensures !HasPrefix(p)(m[j]) {
      assert Ids(m)[j] != Ids(m)[k];
    }
    FilterSingle(m, HasPrefix(p), k);
  }

  /**
   * Merging is idempotent: the "all platforms" view of the view is the view
   * itself (its ids carry no `.` and each stands for a single entry).
   */
  lemma MergedViewIdempotent(d: seq<Record>)
    ensures MergedView(MergedView(d)) == MergedView(d)
  {
    var m := MergedView(d);
    var ids := Distinct(Prefixes(d));
    MergedViewIds(d);
    MergedViewPlainIds(d);
    assert Prefixes(m) == ids;
    DistinctOfNoDuplicates(ids);
    forall k | 0 <= k < |m| ensures MergedView(m)[k] == m[k] {
      MergedEntryOfLoneEntry(m, k);
    }
  }

  /**
   * The combined sets do not depend on the order in which records (for
   * instance, whole backends) arrived: two inputs holding the same records
   * give the same techniques, and each technique the same set of tactics,
   * platforms and external ids. Only the first-seen display fields may differ.
   */
  lemma MergedViewOrderIndependent(d1: seq<Record>, d2: seq<Record>, p: string, f: ListField)
    requires multiset(d1) == multiset(d2)
    requires p in Prefixes(d1)
    ensures p in Prefixes(d2)
    ensures forall t :: t in Attr(MergedEntry(d1, p), f) <==> t in Attr(MergedEntry(d2, p), f)
  {
    var j1 :| 0 <= j1 < |d1| && Prefixes(d1)[j1] == p;
    assert d1[j1] in multiset(d2);
    var j2 :| 0 <= j2 < |d2| && d2[j2] == d1[j1];
    assert Prefixes(d2)[j2] == p;
    MergedEntryUnion(d1, p, f);
    MergedEntryUnion(d2, p, f);
    forall r ensures r in d1 <==> r in d2 {
      assert r in d1 <==> r in multiset(d1);
      assert r in d2 <==> r in multiset(d2);
    }
  }
}
