/** From weak coverage cells to findings. */
module CoverageFindings {
  import opened Sequences
  import opened Text
  import opened Findings
  import opened Coverage

  function UserSegmentName(segment: UserSegment): string {
    match segment
    case AllUsers => "all_users"
    case AdminsAny => "admins_any"
    case Guests => "guests"
    case ServiceAccounts => "service_accounts"
    case PrivilegedRoles => "privileged_roles"
  }

  function AppSegmentName(segment: AppSegment): string {
    match segment
    case AllApps => "all_apps"
    case M365Core => "m365_core"
    case AdminPortals => "admin_portals"
    case LegacyAuth => "legacy_auth"
    case HighRiskApps => "high_risk_apps"
  }

  function LevelName(level: ProtectionLevel): string {
    match level
    case NoControl => "NONE"
    case ReportOnly => "REPORT_ONLY"
    case CompliantDevice => "COMPLIANT_DEVICE"
    case Mfa => "MFA"
    case MfaAndDevice => "MFA_AND_DEVICE"
  }

  const SENSITIVE_APP_SEGMENTS := {M365Core, AdminPortals, HighRiskApps}

  function SeverityForCell(cell: Cell): Option<Severity> {
    if Rank(cell.level) >= Rank(Mfa) then None
    else if cell.level == CompliantDevice then None
    else if cell.members == 0 && cell.userSegment != AllUsers then None
    else
      var reportOnly := cell.level == ReportOnly;
      var app := cell.appSegment;
      match cell.userSegment
      case PrivilegedRoles => Some(if reportOnly then High else Critical)
      case AdminsAny =>
        if app in {M365Core, AdminPortals} then Some(if reportOnly then High else Critical)
        else Some(if reportOnly then Medium else High)
      case AllUsers =>
        if app in {M365Core, LegacyAuth} then Some(if reportOnly then Medium else High)
        else Some(if reportOnly then Low else Severity.Medium)
      case Guests =>
        if app in SENSITIVE_APP_SEGMENTS then Some(if reportOnly then Medium else High)
        else Some(if reportOnly then Low else Severity.Medium)
      case ServiceAccounts => Some(if reportOnly then Low else Severity.Medium)
  }

  function RuleIdOf(cell: Cell): string {
    "coverage." + UserSegmentName(cell.userSegment) + ['-'] + ("on-" + AppSegmentName(cell.appSegment))
  }

  function PolicyObject(id: string): AffectedObject { AffectedObject("policy", id, id) }

  function AffectedBy(cell: Cell, tenantId: string): seq<AffectedObject> {
    if cell.applicable != [] then Map(cell.applicable, PolicyObject)
    else [AffectedObject("tenant", tenantId, tenantId)]
  }

  function CellFinding(hash: string -> string, tenantId: string, now: int): Cell -> Option<Finding> {
    (cell: Cell) =>
      match SeverityForCell(cell)
      case None => None
      case Some(severity) =>
        var affected := AffectedBy(cell, tenantId);
        Some(Finding(
               ComputeId(hash, tenantId, RuleIdOf(cell), Map(affected, ObjectId)),
               tenantId, RuleIdOf(cell), CoverageGap, severity, affected,
               map["user_segment" := UserSegmentName(cell.userSegment),
                   "app_segment" := AppSegmentName(cell.appSegment),
                   "protection_level" := LevelName(cell.level)],
               now, now))
  }

  /** The findings of a matrix, in the order of its flagged cells. */
  function CoverageFindingsOf(hash: string -> string, cells: seq<Cell>, tenantId: string, now: int): seq<Finding> {
    Collect(cells, CellFinding(hash, tenantId, now))
  }

  method FindingsFromCoverage(hash: string -> string, cells: seq<Cell>, tenantId: string, now: int)
    returns (findings: seq<Finding>)
    ensures findings == CoverageFindingsOf(hash, cells, tenantId, now)
  {
    findings := [];
    for i := 0 to |cells|
      invariant findings == CoverageFindingsOf(hash, cells[..i], tenantId, now)
    {
      var finding := CellFinding(hash, tenantId, now)(cells[i]);
      CollectNext(cells, i, CellFinding(hash, tenantId, now));
      if finding.Some? {
        findings := findings + [finding.value];
      }
    }
    assert cells[..|cells|] == cells;
  }

  /** No finding counts as the lowest severity. */
  function SeverityOf(cell: Cell): nat {
    match SeverityForCell(cell)
    case None => 0
    case Some(severity) => SeverityRank(severity)
  }
}
