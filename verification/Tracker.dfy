/** The load generator's stale-read detector. */
module Tracker {
  type Versions = map<string, int>

  /** Go's map lookup: an absent key reads as 0. */
  function Expected(versions: Versions, key: string): int {
    if key in versions then versions[key] else 0
  }

  function Recorded(versions: Versions, key: string, version: int): Versions {
    if version > Expected(versions, key) then versions[key := version] else versions
  }

  predicate Stale(versions: Versions, key: string, version: int) {
    version < Expected(versions, key) && Expected(versions, key) > 0
  }

  class VersionTracker {
    var versions: Versions

    constructor ()
      ensures versions == map[]
    {
      versions := map[];
    }

    method RecordWrite(key: string, version: int)
      modifies this
      ensures versions == Recorded(old(versions), key, version)
      ensures forall k :: Expected(versions, k) >= Expected(old(versions), k)
      ensures Expected(versions, key) >= version
    {
      var expected := if key in versions then versions[key] else 0;
      if version > expected {
        versions := versions[key := version];
      }
    }

    method CheckRead(key: string, version: int) returns (stale: bool)
      ensures stale <==> Stale(versions, key, version)
    {
      var expected := if key in versions then versions[key] else 0;
      stale := version < expected && expected > 0;
    }
  }
}
