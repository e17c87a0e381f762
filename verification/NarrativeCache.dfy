/** The content-addressed table of generated narratives. */
module NarrativeCache {
  import opened Sequences
  import opened Text

  datatype CachedNarrative = CachedNarrative(
    cacheKey: string, ruleId: string, evidenceHash: string, promptVersion: string,
    provider: string, model: string, markdown: string,
    inputTokens: int, outputTokens: int, latencyMs: int,
    generatedAt: int, lastUsedAt: int, useCount: int)

  type Rows = map<string, CachedNarrative>

  function KeyPayload(sha: string -> string, ruleId: string, evidence: string,
                      promptVersion: string, model: string): string
  {
    ruleId + ['|'] + (sha(evidence) + ['|'] + (promptVersion + ['|'] + model))
  }

  /** `evidence` is the canonical text of the evidence; the tenant takes no part. */
  function ComputeCacheKey(sha: string -> string, ruleId: string, evidence: string,
                           promptVersion: string, model: string): string
  {
    sha(KeyPayload(sha, ruleId, evidence, promptVersion, model))
  }

  /** Under a collision-free digest written without bars, and bar-free rule ids and prompt versions,
      two requests share a cache key exactly when all four components agree. */
  lemma CacheKeyIdentifiesRequest(sha: string -> string,
                                  rule1: string, evidence1: string, version1: string, model1: string,
                                  rule2: string, evidence2: string, version2: string, model2: string)
    requires Injective(sha) && forall x :: '|' !in sha(x)
    requires '|' !in rule1 && '|' !in rule2 && '|' !in version1 && '|' !in version2
    ensures ComputeCacheKey(sha, rule1, evidence1, version1, model1)
            == ComputeCacheKey(sha, rule2, evidence2, version2, model2)
            <==> (rule1, evidence1, version1, model1) == (rule2, evidence2, version2, model2)
  {
    if ComputeCacheKey(sha, rule1, evidence1, version1, model1)
       == ComputeCacheKey(sha, rule2, evidence2, version2, model2)
    {
      var tail1 := version1 + ['|'] + model1;
      var tail2 := version2 + ['|'] + model2;
      SplitAtSeparator(rule1, sha(evidence1) + ['|'] + tail1, rule2, sha(evidence2) + ['|'] + tail2, '|');
      SplitAtSeparator(sha(evidence1), tail1, sha(evidence2), tail2, '|');
      SplitAtSeparator(version1, model1, version2, model2, '|');
    }
  }

  /** The row a lookup returns: recency and use count are bumped first. */
  function Bumped(row: CachedNarrative, now: int): CachedNarrative {
    row.(lastUsedAt := now, useCount := row.useCount + 1)
  }

  function Evicted(rows: Rows, cutoff: int): Rows {
    map key | key in rows && rows[key].lastUsedAt >= cutoff :: rows[key]
  }

  /** A row after it was hit at these moments. */
  function Hit(row: CachedNarrative, moments: seq<int>): CachedNarrative {
    if moments == [] then row else Bumped(Hit(row, moments[..|moments| - 1]), moments[|moments| - 1])
  }

  /** Hits change nothing but the use count, which counts them, and the last use; so a row hit at a moment survives
      every eviction up to that moment, and the others fare as without the hits. */
  lemma {:induction false} HitsKeepTheRow(rows: Rows, key: string, moments: seq<int>, cutoff: int)
    requires key in rows && moments != []
    ensures Hit(rows[key], moments)
            == rows[key].(lastUsedAt := moments[|moments| - 1], useCount := rows[key].useCount + |moments|)
    ensures var kept := Evicted(rows[key := Hit(rows[key], moments)], cutoff);
            && (key in kept <==> cutoff <= moments[|moments| - 1])
            && forall other | other != key :: other in kept <==> other in Evicted(rows, cutoff)
  {
    var n := |moments| - 1;
    if n == 0 {
      assert moments[..n] == [];
    } else {
      HitsKeepTheRow(rows, key, moments[..n], cutoff);
    }
  }

  class NarrativeCache {
    var rows: Rows

    constructor ()
      ensures rows == map[]
    {
      rows := map[];
    }

    method GetCachedNarrative(key: string, now: int) returns (hit: Option<CachedNarrative>)
      modifies this
      ensures hit == if key in old(rows) then Some(Bumped(old(rows)[key], now)) else None
      ensures rows == if key in old(rows) then old(rows)[key := Bumped(old(rows)[key], now)] else old(rows)
    {
      if key !in rows {
        return None;
      }
      var row := rows[key];
      var newUseCount := row.useCount + 1;
      rows := rows[key := row.(lastUsedAt := now, useCount := newUseCount)];
      return Some(row.(lastUsedAt := now, useCount := newUseCount));
    }

    method StoreNarrative(row: CachedNarrative)
      modifies this
      ensures rows == old(rows)[row.cacheKey := row]
    {
      rows := rows[row.cacheKey := row];
    }

    method EvictOld(cutoff: int) returns (deleted: nat)
      modifies this
      ensures rows == Evicted(old(rows), cutoff)
      ensures deleted == |old(rows)| - |rows|
      ensures forall key | key in old(rows) :: key in rows <==> old(rows)[key].lastUsedAt >= cutoff
    {
      var kept := Evicted(rows, cutoff);
      assert kept.Keys <= rows.Keys;
      SubsetSize(kept.Keys, rows.Keys);
      deleted := |rows| - |kept|;
      rows := kept;
    }
  }
}
