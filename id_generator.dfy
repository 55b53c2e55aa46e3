/**
 * The identifier generator of the earlier, in-memory version of the service
 * (service/idgenerator.py) and the dictionary it consults. That dictionary,
 * `urlMap` of models/testurls.py, is a module-level `dict` from short URL to
 * long URL; models/testurls.py itself is not part of this model.
 */
module IdGenerator {
  import opened Wrappers
  import Schemas

  /** The length `randomID` asks nanoid for. */
  const GeneratedLength := 15

  /**
   * A result of nanoid's `generate(size=15)`: fifteen characters of its
   * default alphabet, which is `[A-Za-z0-9_-]`.
   */
  type NanoId = s: string | |s| == GeneratedLength && Schemas.AllShortIdChars(s)
    witness "AAAAAAAAAAAAAAA"

  /** The module-level dictionary `urlMap`, changed in place by the legacy handlers. */
  class UrlMap {
    var entries: map<string, string>

    constructor ()
      ensures entries == map[]
    {
      entries := map[];
    }
  }

  /** `ids[i]` is where `randomID`'s loop stops when `taken` holds the keys in use. */
  ghost predicate FirstFreshAt(ids: seq<NanoId>, taken: map<string, string>, i: int) {
    && 0 <= i < |ids|
    && ids[i] !in taken
    && forall j :: 0 <= j < i ==> ids[j] in taken
  }

  /**
   * `randomID()`: successive nanoid draws are `ids`, and the first one that
   * is not a key of `urlMap` is returned; `urlMap` is only read. `None` means
   * every supplied draw was taken.
   */
  method RandomId(store: UrlMap, ids: seq<NanoId>) returns (r: Option<string>)
    ensures r.Some? ==> r.value !in store.entries
    ensures r.Some? ==> |r.value| == GeneratedLength && Schemas.WellFormedShortId(r.value)
    ensures r.Some? ==> exists i :: FirstFreshAt(ids, store.entries, i) && ids[i] == r.value
    ensures |ids| > 0 && ids[0] !in store.entries ==> r == Some(ids[0])
    ensures r.None? <==> forall j :: 0 <= j < |ids| ==> ids[j] in store.entries
  {
    var randId: string;
    var k := 0;
    if |ids| == 0 {
      return None;
    }
    randId := ids[0];
    while randId in store.entries
      invariant 0 <= k < |ids| && randId == ids[k]
      invariant forall j :: 0 <= j < k ==> ids[j] in store.entries
      decreases |ids| - k
    {
      if k + 1 == |ids| {
        return None;
      }
      k := k + 1;
      randId := ids[k];
    }
    assert FirstFreshAt(ids, store.entries, k);
    r := Some(randId);
  }
}
