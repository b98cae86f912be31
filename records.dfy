/**
 * The entities the engine works on: technique research records, backend
 * descriptors, the platform registry merge, the record enrichment stamp and
 * the technique identity of a record id.
 */
module Records {
  import opened Text

  datatype Option<T> = None | Some(value: T)

  /**
   * One technique research record. `procedures` lists the procedure keys and
   * texts in the object's iteration order and is None when the field is
   * absent (merged "all platforms" entries); `baseUrl` and `sourceRepo` are
   * the provenance fields that enrichment writes.
   */
  datatype Record = Record(
    id: string,
    name: string,
    tactics: seq<string>,
    platforms: seq<string>,
    externalIds: seq<string>,
    procedures: Option<seq<(string, string)>>,
    baseUrl: string,
    sourceRepo: string)

  /** A backend descriptor from backends.json: `Name`, `BaseUrl`, `RawIndexBaseUrl`. */
  datatype Backend = Backend(name: string, baseUrl: string, rawIndexBaseUrl: string)

  /** The platform registry: platform key to display value. */
  type Registry = map<string, string>

  /**
   * The technique identity of an id, `id.split(".")[0]`: the text before the
   * first `.`, or the whole id when it has none.
   */
  function TechPrefix(id: string): (p: string)
    ensures p <= id && '.' !in p
    ensures p == id || id[|p|] == '.'
  {
    SplitHead(id, '.');
    Split(id, '.')[0]
  }

  /** An id without a `.` is its own technique identity. */
  lemma TechPrefixOfPlainId(id: string)
    requires '.' !in id
    ensures TechPrefix(id) == id
  {
    SplitNoSeparator(id, '.');
  }

  /**
   * `{ ...current, ...batch }`: every key of either map, the batch's value on
   * a shared key, the current value on a key only the registry had.
   */
  function MergePlatforms(current: Registry, batch: Registry): (r: Registry)
    ensures r.Keys == current.Keys + batch.Keys
    ensures forall k :: k in batch ==> r[k] == batch[k]
    ensures forall k :: k in current && k !in batch ==> r[k] == current[k]
  {
    current + batch
  }

  /**
   * `glblPlatforms[platforms[0]]` as it ends up in a link: the registry's
   * value for the record's first platform, or the text "undefined" when the
   * key is not registered (an empty platform list reads key "undefined").
   */
  function PlatformDir(registry: Registry, platforms: seq<string>): (dir: string)
    ensures platforms != [] && platforms[0] in registry ==> dir == registry[platforms[0]]
    ensures platforms != [] && platforms[0] !in registry ==> dir == "undefined"
    ensures platforms == [] ==> dir == if "undefined" in registry then registry["undefined"] else "undefined"
  {
    var key := if platforms == [] then "undefined" else platforms[0];
    if key in registry then registry[key] else "undefined"
  }

  /** The enrichment stamp: provenance from the backend, every other field as it was. */
  function Stamp(r: Record, backend: Backend): (s: Record)
    ensures s.baseUrl == backend.baseUrl && s.sourceRepo == backend.name
    ensures s.(baseUrl := r.baseUrl, sourceRepo := r.sourceRepo) == r
  {
    r.(baseUrl := backend.baseUrl, sourceRepo := backend.name)
  }

  /** A batch of records, each stamped with the backend's provenance. */
  function Enriched(index: seq<Record>, backend: Backend): (e: seq<Record>)
    ensures |e| == |index|
    ensures forall i :: 0 <= i < |index| ==> e[i] == Stamp(index[i], backend)
  {
    seq(|index|, i requires 0 <= i < |index| => Stamp(index[i], backend))
  }

  /**
   * Enriching is idempotent, and a second enrichment by another backend
   * leaves only the last backend's provenance.
   */
  lemma EnrichedTwice(index: seq<Record>, first: Backend, second: Backend)
    ensures Enriched(Enriched(index, first), first) == Enriched(index, first)
    ensures Enriched(Enriched(index, first), second) == Enriched(index, second)
  {
  }
}
