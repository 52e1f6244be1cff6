/** The entities of the incident service: the enumerations generated from the
    database schema, the incident and comment records, and the error kinds. */
module IncidentTypes {
  import opened Wrappers

  /** Milliseconds since the epoch; the clock is a parameter, never read. */
  type Timestamp = int
  type IncidentId = string
  type UserId = string

  datatype Status = Open | Investigating | Identified | Mitigated | Resolved | Closed | Discarded

  datatype Severity = Low | Medium | High | Critical

  /** The service distinguishes only ADMIN; `NonAdmin` stands for every other role. */
  datatype Role = Admin | NonAdmin

  /** Comments written by the transition engine are system events; people write the others. */
  datatype CommentType = SystemEvent | UserComment

  /** The status-dependent fields of an incident: three nullable timestamps and
      the start of the SLA clock that is currently running. */
  datatype Clocks = Clocks(
    acknowledgedAt: Option<Timestamp>,
    resolvedAt: Option<Timestamp>,
    closedAt: Option<Timestamp>,
    currentSlaStartAt: Timestamp)

  datatype Incident = Incident(
    id: IncidentId,
    severity: Severity,
    status: Status,
    slaTargetMinutes: nat,
    clocks: Clocks,
    ownerId: UserId,
    createdById: UserId,
    version: nat)

  datatype Comment = Comment(incidentId: IncidentId, authorId: UserId, message: string, kind: CommentType)

  datatype Error =
    | InvalidSeverity(severity: string)
    | IncidentNotFound(incidentId: IncidentId)
    | UserNotFound(userId: UserId)
    | Unauthorized(userId: UserId)
    | InvalidTransition(from: Status, to: Status)
    | DiscardedIsFinal(requested: Status)
    | ConcurrentModification(incidentId: IncidentId, expectedVersion: nat)

  /** The string value of a status, as stored and as interpolated into messages. */
  function StatusName(s: Status): string {
    match s
    case Open => "OPEN"
    case Investigating => "INVESTIGATING"
    case Identified => "IDENTIFIED"
    case Mitigated => "MITIGATED"
    case Resolved => "RESOLVED"
    case Closed => "CLOSED"
    case Discarded => "DISCARDED"
  }

  /** Characters that can occur in an enumeration value: upper-case letters and `_`. */
  predicate IsNameChar(ch: char) {
    ('A' <= ch <= 'Z') || ch == '_'
  }

  /** Status names are non-empty and spelled with name characters only. */
  lemma StatusNameShape(s: Status)
    ensures |StatusName(s)| > 0
    ensures forall k :: 0 <= k < |StatusName(s)| ==> IsNameChar(StatusName(s)[k])
  {
  }

  /** Distinct statuses have distinct names. */
  lemma StatusNameInjective(s: Status, t: Status)
    ensures StatusName(s) == StatusName(t) ==> s == t
  {
  }
}
