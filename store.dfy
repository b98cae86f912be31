/**
 * The shared state the backend completion callbacks write: the aggregate
 * record list (`glblData`) and the platform registry (`glblPlatforms`), plus
 * `enrichData`, which stamps a freshly fetched index in place.
 */
module Store {
  import opened Records
  import Reconcile

  /** `enrichData(backend, inData)`: stamps every record of the index in place. */
  method EnrichData(backend: Backend, index: array<Record>)
    modifies index
    ensures index[..] == Enriched(old(index[..]), backend)
  {
    for i := 0 to index.Length
      invariant forall k :: 0 <= k < i ==> index[k] == Stamp(old(index[k]), backend)
      invariant forall k :: i <= k < index.Length ==> index[k] == old(index[k])
    {
      index[i] := index[i].(baseUrl := backend.baseUrl, sourceRepo := backend.name);
    }
  }

  /** The two globals: all records fetched so far and the platform registry. */
  class Library {
    var data: seq<Record>
    var platforms: Registry

    constructor ()
      ensures data == [] && platforms == map[]
    {
      data := [];
      platforms := map[];
    }

    /** `addPlatforms(batch)`: the registry becomes the right-biased union with the batch. */
    method AddPlatforms(batch: Registry)
      modifies this
      ensures platforms == MergePlatforms(old(platforms), batch)
      ensures data == old(data)
    {
      platforms := platforms + batch;
    }

    /**
     * The completion callback of one backend's fetch on the matrix page:
     * register its platforms, enrich its index, append it to the records,
     * then compute the default "all platforms" view to render. Records
     * already held are left as they were.
     */
    method OnBackendLoaded(backend: Backend, batch: Registry, index: array<Record>)
      returns (view: seq<Record>)
      modifies this, index
      ensures platforms == MergePlatforms(old(platforms), batch)
      ensures data == old(data) + Enriched(old(index[..]), backend)
      ensures data[..|old(data)|] == old(data)
      ensures index[..] == Enriched(old(index[..]), backend)
      ensures view == Reconcile.MergedView(data)
    {
      AddPlatforms(batch);
      EnrichData(backend, index);
      data := data + index[..];
      view := Reconcile.MergeAllPlatforms(data);
    }
  }
}
