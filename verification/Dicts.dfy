/** JSON objects as dictionaries. */
module Dicts {
  import opened Wrappers
  import opened CanonicalJson

  type Dict = map<string, Json>

  /** A missing key reads as null. */
  function Get(d: Dict, key: string): (r: Json) { if key in d then d[key] else Null }

  /** A dictionary with an optional key. */
  function With(d: Dict, key: string, value: Option<Json>): Dict {
    if value.Some? then d[key := value.value] else d
  }

  /** A missing key reads as null, whether it was left out or never there. */
  lemma GetWith(d: Dict, key: string, value: Option<Json>, k: string)
    ensures Get(With(d, key, value), k) == if k == key && value.Some? then value.value else Get(d, k)
  {
  }
}
