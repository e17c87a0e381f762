/** Findings: severity, identity computed from content, and the insert-once table. */
module Findings {
  import opened Sequences
  import opened Ordering
  import opened Text

  datatype Severity = Info | Low | Medium | High | Critical

  function SeverityRank(severity: Severity): nat {
    match severity
    case Info => 1
    case Low => 2
    case Medium => 3
    case High => 4
    case Critical => 5
  }

  lemma RanksTellSeverities(a: Severity, b: Severity)
    ensures SeverityRank(a) == SeverityRank(b) <==> a == b
    ensures a == Info && b != Info ==> SeverityRank(a) < SeverityRank(b)
    ensures a == Critical && b != Critical ==> SeverityRank(a) > SeverityRank(b)
  {
  }

  datatype AffectedObject = AffectedObject(kind: string, id: string, displayName: string)

  datatype Category = CoverageGap | RuleBreach | ExclusionHygiene | Anomaly

  /** `evidence` holds the text-valued entries of the evidence record. */
  datatype Finding = Finding(
    id: string, tenantId: string, ruleId: string, category: Category, severity: Severity,
    affected: seq<AffectedObject>, evidence: map<string, string>, detectedAt: int, firstSeenAt: int)

  function ObjectId(o: AffectedObject): string { o.id }

  // ---------------------------------------------------------------- identity

  function Payload(tenantId: string, ruleId: string, objectIds: seq<string>): string {
    tenantId + ['|'] + (ruleId + ['|'] + Join(Sort(objectIds, LexLe), ','))
  }

  /** `hash` is the truncated digest. */
  function ComputeId(hash: string -> string, tenantId: string, ruleId: string, objectIds: seq<string>): string {
    hash(Payload(tenantId, ruleId, objectIds))
  }

  predicate SeparatorFree(ruleId: string, objectIds: seq<string>) {
    '|' !in ruleId && objectIds != [] && forall id | id in objectIds :: ',' !in id
  }

  /** Within one tenant the tenant id may be anything. */
  predicate TenantsTell(tenant1: string, tenant2: string) {
    tenant1 == tenant2 || ('|' !in tenant1 && '|' !in tenant2)
  }

  lemma SortedTextsForgetOrder(xs: seq<string>, ys: seq<string>)
    requires multiset(xs) == multiset(ys)
    ensures Sort(xs, LexLe) == Sort(ys, LexLe)
  {
    LexIsOrder();
    forall x, y | x in xs && y in xs && Tied(LexLe, x, y)
      ensures x == y
    {
      LexAntisymmetric(x, y);
    }
    SortForgetsOrder(xs, ys, LexLe);
  }

  /** What an id keeps of the objects of a finding. */
  function ObjectPieces(objectIds: seq<string>): seq<string> { Pieces(Sort(objectIds, LexLe), ',') }

  lemma SplitTenants(tenant1: string, rest1: string, tenant2: string, rest2: string)
    requires TenantsTell(tenant1, tenant2)
    requires tenant1 + ['|'] + rest1 == tenant2 + ['|'] + rest2
    ensures tenant1 == tenant2 && rest1 == rest2
  {
    if tenant1 == tenant2 {
      assert rest1 == (tenant1 + ['|'] + rest1)[|tenant1| + 1..];
      assert rest2 == (tenant2 + ['|'] + rest2)[|tenant2| + 1..];
    } else {
      SplitAtSeparator(tenant1, rest1, tenant2, rest2, '|');
    }
  }

  /** Two findings share an id exactly when tenant, rule and the comma-separated pieces of their sorted objects
      agree. */
  lemma IdIsSharedExactly(hash: string -> string,
                          tenant1: string, rule1: string, ids1: seq<string>,
                          tenant2: string, rule2: string, ids2: seq<string>)
    requires Injective(hash) && TenantsTell(tenant1, tenant2)
    requires '|' !in rule1 && '|' !in rule2
    ensures ComputeId(hash, tenant1, rule1, ids1) == ComputeId(hash, tenant2, rule2, ids2)
            <==> tenant1 == tenant2 && rule1 == rule2 && ObjectPieces(ids1) == ObjectPieces(ids2)
  {
    var joined1, joined2 := Join(Sort(ids1, LexLe), ','), Join(Sort(ids2, LexLe), ',');
    JoinsAgreeExactly(Sort(ids1, LexLe), Sort(ids2, LexLe), ',');
    if Payload(tenant1, rule1, ids1) == Payload(tenant2, rule2, ids2) {
      SplitTenants(tenant1, rule1 + ['|'] + joined1, tenant2, rule2 + ['|'] + joined2);
      SplitAtSeparator(rule1, joined1, rule2, joined2, '|');
    }
  }

  lemma PlainPieces(objectIds: seq<string>)
    requires objectIds != [] && forall id | id in objectIds :: ',' !in id
    ensures ObjectPieces(objectIds) == Sort(objectIds, LexLe)
  {
    SortKeeps(objectIds, LexLe);
    PiecesPlain(Sort(objectIds, LexLe), ',');
  }

  /** With objects that hold no comma, that is the same tenant, rule and objects in any order. */
  lemma IdIdentifiesContent(hash: string -> string,
                            tenant1: string, rule1: string, ids1: seq<string>,
                            tenant2: string, rule2: string, ids2: seq<string>)
    requires Injective(hash) && TenantsTell(tenant1, tenant2)
    requires SeparatorFree(rule1, ids1) && SeparatorFree(rule2, ids2)
    ensures ComputeId(hash, tenant1, rule1, ids1) == ComputeId(hash, tenant2, rule2, ids2)
            <==> tenant1 == tenant2 && rule1 == rule2 && multiset(ids1) == multiset(ids2)
  {
    IdIsSharedExactly(hash, tenant1, rule1, ids1, tenant2, rule2, ids2);
    PlainPieces(ids1);
    PlainPieces(ids2);
    SortMultiset(ids1, LexLe);
    SortMultiset(ids2, LexLe);
    if multiset(ids1) == multiset(ids2) {
      SortedTextsForgetOrder(ids1, ids2);
    }
  }

  /** So an object with a comma passes for two objects, and no objects for one without a name. */
  lemma SeparatorsCanCollide(hash: string -> string, tenantId: string, ruleId: string, a: string, b: string)
    requires LexLe(a, b)
    ensures ComputeId(hash, tenantId, ruleId, [a + [','] + b]) == ComputeId(hash, tenantId, ruleId, [a, b])
    ensures ComputeId(hash, tenantId, ruleId, []) == ComputeId(hash, tenantId, ruleId, [""])
  {
    OneJoins(a + [','] + b);
    OneJoins("");
    TwoJoin(a, b);
  }

  lemma OneJoins(x: string)
    ensures Join(Sort([x], LexLe), ',') == x
  {
    SortOfSorted([x], LexLe);
  }

  lemma TwoJoin(a: string, b: string)
    requires LexLe(a, b)
    ensures Join(Sort([a, b], LexLe), ',') == a + [','] + b
  {
    SortOfSorted([a, b], LexLe);
    assert [a, b][1..] == [b];
  }

  // ---------------------------------------------------------------- the table

  type Rows = map<string, Finding>

  /** The table after writing findings one by one, keeping rows already there. */
  function Written(rows: Rows, findings: seq<Finding>): Rows {
    if findings == [] then rows
    else
      var before, finding := Written(rows, findings[..|findings| - 1]), findings[|findings| - 1];
      if finding.id in before then before else before[finding.id := finding]
  }

  class FindingsTable {
    var rows: Rows

    constructor ()
      ensures rows == map[]
    {
      rows := map[];
    }

    /** The number returned is the number of rows the table gained. */
    method WriteFindings(findings: seq<Finding>) returns (inserted: nat)
      modifies this
      ensures rows == Written(old(rows), findings)
      ensures inserted == |rows| - |old(rows)|
    {
      if findings == [] {
        return 0;
      }
      inserted := 0;
      for i := 0 to |findings|
        invariant rows == Written(old(rows), findings[..i])
        invariant inserted == |rows| - |old(rows)|
      {
        var finding := findings[i];
        assert findings[..i + 1][..i] == findings[..i];
        if finding.id in rows {
          continue;
        }
        rows := rows[finding.id := finding];
        inserted := inserted + 1;
      }
      assert findings[..|findings|] == findings;
    }
  }

  lemma WrittenSnoc(rows: Rows, findings: seq<Finding>, finding: Finding)
    ensures Written(rows, findings + [finding])
            == if finding.id in Written(rows, findings) then Written(rows, findings)
               else Written(rows, findings)[finding.id := finding]
  {
    assert (findings + [finding])[..|findings|] == findings;
  }

  /** Writing two batches is writing their concatenation. */
  lemma {:induction false} WritesCompose(rows: Rows, xs: seq<Finding>, ys: seq<Finding>)
    ensures Written(rows, xs + ys) == Written(Written(rows, xs), ys)
  {
    if ys == [] {
      assert xs + ys == xs;
    } else {
      WritesCompose(rows, xs, ys[..|ys| - 1]);
      assert xs + ys == xs + ys[..|ys| - 1] + [ys[|ys| - 1]];
      WrittenSnoc(rows, xs + ys[..|ys| - 1], ys[|ys| - 1]);
    }
  }

  function FindingId(finding: Finding): string { finding.id }

  /** Every id written has a row, and no others do. */
  lemma {:induction false} WrittenIds(rows: Rows, findings: seq<Finding>)
    ensures Written(rows, findings).Keys == rows.Keys + ToSet(Map(findings, FindingId))
  {
    if findings != [] {
      var front, last := findings[..|findings| - 1], findings[|findings| - 1];
      WrittenIds(rows, front);
      MapAppend(front, [last], FindingId);
      assert findings == front + [last];
      assert ToSet(Map(findings, FindingId)) == ToSet(Map(front, FindingId)) + {last.id};
    } else {
      assert ToSet(Map(findings, FindingId)) == {};
    }
  }

  /** A row once written never changes again, `firstSeenAt` included. */
  lemma {:induction false} RowsNeverChange(rows: Rows, findings: seq<Finding>)
    ensures forall id | id in rows :: id in Written(rows, findings) && Written(rows, findings)[id] == rows[id]
  {
    if findings == [] {
    } else {
      RowsNeverChange(rows, findings[..|findings| - 1]);
    }
  }

  /** The row under an id is the earliest finding ever written under it. */
  lemma {:induction false} EarliestFindingWins(rows: Rows, findings: seq<Finding>, i: nat)
    requires i < |findings| && findings[i].id !in rows
    requires forall j | 0 <= j < i :: findings[j].id != findings[i].id
    ensures findings[i].id in Written(rows, findings) && Written(rows, findings)[findings[i].id] == findings[i]
  {
    var before, rest := findings[..i], findings[i + 1..];
    WrittenIds(rows, before);
    WrittenSnoc(rows, before, findings[i]);
    assert findings == before + [findings[i]] + rest;
    WritesCompose(rows, before + [findings[i]], rest);
    RowsNeverChange(Written(rows, before + [findings[i]]), rest);
  }

  predicate IdsTell<S(==)>(findings: seq<Finding>, subject: Finding -> S) {
    forall f, g | f in findings && g in findings :: f.id == g.id <==> subject(f) == subject(g)
  }

  lemma OldIdOldSubject<S>(findings: seq<Finding>, last: Finding, subject: Finding -> S)
    requires IdsTell(findings + [last], subject)
    ensures last.id in Written(map[], findings) <==> subject(last) in Map(findings, subject)
  {
    WrittenIds(map[], findings);
    MapMember(findings, FindingId, last.id);
    MapMember(findings, subject, subject(last));
    assert last in findings + [last];
    assert forall f | f in findings :: f in findings + [last];
  }

  /** When ids tell subjects apart and nothing else, a fresh table holds one row per subject. */
  lemma {:induction false} OneRowPerSubject<S>(findings: seq<Finding>, subject: Finding -> S)
    requires IdsTell(findings, subject)
    ensures |Written(map[], findings)| == |ToSet(Map(findings, subject))|
  {
    if findings == [] {
      assert ToSet(Map(findings, subject)) == {};
    } else {
      var front, last := findings[..|findings| - 1], findings[|findings| - 1];
      assert findings == front + [last];
      OneRowPerSubject(front, subject);
      OldIdOldSubject(front, last, subject);
      assert Map(findings, subject) == Map(front, subject) + [subject(last)];
      ToSetSnoc(Map(front, subject), subject(last));
    }
  }

  /** Writing again what is already there changes nothing. */
  lemma {:induction false} RewritesAreNoOps(rows: Rows, findings: seq<Finding>)
    requires forall finding | finding in findings :: finding.id in rows
    ensures Written(rows, findings) == rows
  {
    if findings == [] {
    } else {
      RewritesAreNoOps(rows, findings[..|findings| - 1]);
    }
  }

  /** Over any number of runs the table equals one write of everything, so each run adds only new ids. */
  function WrittenByRuns(rows: Rows, runs: seq<seq<Finding>>): Rows {
    if runs == [] then rows else Written(WrittenByRuns(rows, runs[..|runs| - 1]), runs[|runs| - 1])
  }

  function Everything(runs: seq<seq<Finding>>): seq<Finding> {
    if runs == [] then [] else Everything(runs[..|runs| - 1]) + runs[|runs| - 1]
  }

  lemma {:induction false} RunsAreOneWrite(rows: Rows, runs: seq<seq<Finding>>)
    ensures WrittenByRuns(rows, runs) == Written(rows, Everything(runs))
  {
    if runs == [] {
    } else {
      RunsAreOneWrite(rows, runs[..|runs| - 1]);
      WritesCompose(rows, Everything(runs[..|runs| - 1]), runs[|runs| - 1]);
    }
  }

  lemma {:induction false} EverythingSplits(runs: seq<seq<Finding>>, r: nat)
    requires r < |runs|
    ensures exists rest :: Everything(runs) == Everything(runs[..r]) + runs[r] + rest
  {
    var front := runs[..|runs| - 1];
    if r < |front| {
      EverythingSplits(front, r);
      var rest :| Everything(front) == Everything(front[..r]) + front[r] + rest;
      assert front[..r] == runs[..r];
      assert Everything(runs) == Everything(runs[..r]) + runs[r] + (rest + runs[|runs| - 1]);
    } else {
      assert runs[..r] == front;
      assert Everything(runs) == Everything(runs[..r]) + runs[r] + [];
    }
  }

  /** However often later runs detect the same thing, the row of the run that first saw it stays. */
  lemma FirstSeenSurvivesRuns(runs: seq<seq<Finding>>, r: nat, i: nat)
    requires r < |runs| && i < |runs[r]|
    requires forall finding | finding in Everything(runs[..r]) :: finding.id != runs[r][i].id
    requires forall j | 0 <= j < i :: runs[r][j].id != runs[r][i].id
    ensures var rows := WrittenByRuns(map[], runs);
            runs[r][i].id in rows && rows[runs[r][i].id] == runs[r][i]
  {
    EverythingSplits(runs, r);
    var earlier := Everything(runs[..r]);
    var rest :| Everything(runs) == earlier + runs[r] + rest;
    var all := Everything(runs);
    RunsAreOneWrite(map[], runs);
    assert all[|earlier| + i] == runs[r][i];
    forall j | 0 <= j < |earlier| + i
      ensures all[j].id != runs[r][i].id
    {
      if j < |earlier| {
        assert all[j] == earlier[j];
      } else {
        assert all[j] == runs[r][j - |earlier|];
      }
    }
    EarliestFindingWins(map[], all, |earlier| + i);
  }
}
