# Incident lifecycle engine — a Dafny model

This project models the incident service of the opsboard repository
(`services/incidentService.ts`): creating an incident from a severity and its
fixed SLA target, and changing an incident's status through a small state
machine that derives the SLA-relevant timestamps, is guarded by an
owner-or-admin check, writes a SYSTEM_EVENT audit comment, and commits the
update and the comment together, conditioned on the version the request read.

Layout:

- `wrappers.dfy` — `Option` and `Result`.
- `types.dfy` — module `IncidentTypes`: the status, severity, role and comment-type
  enumerations, the `Incident` and `Comment` records, the status-dependent
  `Clocks` (acknowledgedAt, resolvedAt, closedAt, currentSlaStartAt) and the
  error kinds.
- `sla.dfy` — module `Sla`: the severity-to-minutes table `SLA_MAP` and the
  truthy lookup `createIncident` performs on it.
- `audit_message.dfy` — module `AuditMessage`: `buildStatusMessage`.
- `lifecycle.dfy` — module `Lifecycle`: the `switch` of `updateStatus` as the
  function `Transition`, the table of legal pairs, the lifecycle invariant and
  a replay of transition sequences.
- `incident_service.dfy` — module `IncidentService`: the store, `createIncident`,
  and `updateStatus` split into `Prepare` (load, authorize, validate, derive,
  build the message) and `Commit` (the version-conditioned transaction), with
  lemmas about races, runs of requests and one end-to-end incident.

The database is a `Store`: a map of incidents by id, a map of user ids to
roles, and a sequence of comments. The clock (`new Date()`) is the `now`
parameter. The id the database generates for a new incident is the `id`
parameter, required to be fresh. `Commit` is the atomic conditional-update
primitive: when the stored version equals the read version it writes both the
incident and the comment, and otherwise it writes neither.

Points where the code's behaviour is easy to misread:

- Leaving DISCARDED raises its own error, distinct from the invalid-transition
  error. The code's message omits the requested status; `DiscardedIsFinal`
  records it.
- A version mismatch at commit time fails inside the database, and so does an
  incident deleted between read and commit. Both are `ConcurrentModification`.
- The `default:` branch (unhandled current status) cannot be reached while the
  status is one of the seven enumeration values, so it has no counterpart.

## Model

| member | source | states |
|---|---|---|
| `Sla.LookupSla` | services/incidentService.ts:26-38 | a severity string is accepted exactly when it names one of LOW, MEDIUM, HIGH, CRITICAL; the entry found names that severity and has positive minutes; any other string fails with InvalidSeverity carrying it |
| `Sla.SlaTableCoversSeverities` | services/incidentService.ts:26-31 | the table's keys are exactly the four severity names and every entry is truthy (positive), so the falsy branch only catches unknown names |
| `Sla.SlaTargets` | services/incidentService.ts:26-31 | LOW, MEDIUM, HIGH and CRITICAL look up to 240, 120, 60 and 15 minutes |
| `IncidentService.CreateIncident` | services/incidentService.ts:33-55 | creation succeeds exactly for known severities; the record is OPEN, has the table's SLA minutes, the SLA clock started at the call time, no acknowledgement, resolution or closing, owner = given owner or else the creator; exactly that record is inserted and no comment is written; on failure the store is unchanged |
| `Lifecycle.InitialClocksConsistent` | services/incidentService.ts:45-47 | a new incident's clocks satisfy the lifecycle invariant and the chronology bound |
| `Lifecycle.Transition` | services/incidentService.ts:90-151 | a pair succeeds exactly when it is one of the nine legal pairs; failures name both statuses (or the target, when leaving DISCARDED); OPEN→INVESTIGATING sets only acknowledgedAt, MITIGATED→RESOLVED only resolvedAt, RESOLVED→CLOSED only closedAt, each to now; a reopen restarts the SLA clock at now and clears the other three; the remaining legal pairs change nothing |
| `Lifecycle.DiscardedIsTerminal` | services/incidentService.ts:145-146 | DISCARDED accepts no target status |
| `Lifecycle.DiscardedAbsorbs` | services/incidentService.ts:145-146 | every non-empty sequence of steps from DISCARDED fails at its first step |
| `Lifecycle.ResetIffReopenMessage` | services/incidentService.ts:126-140 | at a call time other than the current SLA start, a legal transition moves the SLA start exactly when its audit message says "reopened" |
| `Lifecycle.TransitionKeepsConsistent` | services/incidentService.ts:81-151 | a legal transition keeps the clocks consistent with the status: nothing acknowledged while OPEN, a resolution time exactly while RESOLVED or CLOSED, a closing time exactly while CLOSED |
| `Lifecycle.TransitionKeepsChronological` | services/incidentService.ts:81-151 | from a consistent state, with a call time no earlier than every time already recorded (call times non-decreasing in the order the changes commit), every recorded time stays between the SLA start and now, in the order acknowledged ≤ resolved ≤ closed |
| `Lifecycle.EarlierCallTimeBreaksChronology` | services/incidentService.ts:59 | the call-time premise is needed: RESOLVED→CLOSED called with a time before the recorded resolution records a closing before the resolution |
| `Lifecycle.ReplayKeepsInvariant` | services/incidentService.ts:90-151 | any sequence of accepted transitions, with non-decreasing call times, keeps the invariant and the chronology |
| `Lifecycle.ReachableStatesConsistent` | services/incidentService.ts:90-151 | every status/clock combination reachable from creation satisfies the invariant |
| `Lifecycle.ConsistentStatesReachable` | services/incidentService.ts:90-151 | conversely, every consistent and chronological status/clock combination is reached from creation by legal transitions at non-decreasing times, so the invariant describes exactly the reachable states |
| `Lifecycle.NoAcknowledgementAfterOpen` | services/incidentService.ts:91-93 | once an incident is past OPEN with no acknowledgement (as after a reopen), no later transitions record one |
| `AuditMessage.BuildStatusMessage` | services/incidentService.ts:4-9 | the message starts with "I" (the "Incident reopened" form) exactly for a reopen and with "S" ("Status changed") otherwise; its further properties are stated by `ReopenedIff` and `MessageInjective` |
| `AuditMessage.ReopenedIff` | services/incidentService.ts:4-9 | the message contains "reopened" exactly when the transition goes from RESOLVED or CLOSED to INVESTIGATING |
| `AuditMessage.MessageInjective` | services/incidentService.ts:4-9 | distinct (from, to) pairs give distinct messages, so the audit text identifies the transition |
| `IncidentService.Prepare` | services/incidentService.ts:58-153 | the checks run in the order incident-not-found, user-not-found, unauthorized, invalid transition, each failing with its own error; validation passes exactly when the incident and the user exist, the user is an admin or the owner, and the pair is legal; the plan carries the read version, the requested status, the clocks `Transition` derives at the call time and a SYSTEM_EVENT comment by the acting user with the built message |
| `IncidentService.OnlyAdminOrOwnerChangesStatus` | services/incidentService.ts:86-88 | an accepted status change was requested by an existing user whose role is ADMIN or who is the incident's current owner; a NonAdmin who is not the owner gets Unauthorized with the store unchanged, whatever the incident's status and the requested status |
| `IncidentService.Commit` | services/incidentService.ts:155-180 | the commit succeeds exactly when the stored version equals the read version; then the incident takes the new status and clocks, its version becomes the read version + 1, its other fields and every other incident are unchanged, and exactly the planned comment is appended; otherwise nothing is written and the error names the incident and the read version |
| `IncidentService.UpdateStatus` | services/incidentService.ts:58-181 | the checks run in the order incident-not-found, user-not-found, unauthorized, invalid transition, so unauthorized is raised whatever the state machine would say; any failure leaves the store untouched; a success sets the status, derives the clocks by `Transition`, increments the version by one and appends one SYSTEM_EVENT comment with the acting user and the built message |
| `IncidentService.SequentialUpdateCommits` | services/incidentService.ts:155-169 | with no competing writer, the version check at commit always passes: the call succeeds exactly when validation does |
| `IncidentService.RacingUpdatesSerialize` | services/incidentService.ts:155-169 | of two requests that read the same version, the one committing second fails with ConcurrentModification and writes nothing; the version ends one higher and exactly one comment is added |
| `IncidentService.OperationsKeepStoreInvariant` | services/incidentService.ts:33-181 | creation and status changes keep every incident under its own id and within the lifecycle invariant |
| `IncidentService.RunKeepsAuditTrail` | services/incidentService.ts:155-179 | over any run of requests the comments are only appended to, one SYSTEM_EVENT comment per accepted change, and each incident's version grows by exactly its number of accepted changes |
| `IncidentService.ScenarioCreate` | services/incidentService.ts:33-53 | creating a CRITICAL incident gives a 15-minute OPEN incident and no comment |
| `IncidentService.ScenarioAcknowledge` | services/incidentService.ts:91-93 | OPEN→INVESTIGATING by the owner sets acknowledgedAt and writes the comment "Status changed from OPEN to INVESTIGATING" |
| `IncidentService.ScenarioWorkToClosed` | services/incidentService.ts:100-125 | INVESTIGATING→IDENTIFIED→MITIGATED→RESOLVED→CLOSED sets resolvedAt and closedAt at their calls, writes one comment per step and ends at version 5 |
| `IncidentService.ScenarioReopen` | services/incidentService.ts:135-140 | CLOSED→INVESTIGATING clears the three timestamps, restarts the SLA clock, reaches version 6 and writes a comment containing "reopened" |

## Left out

- The Prisma client and its transaction machinery: the store is an abstract map
  and `Commit` stands for the two-statement transaction.
- Reading the clock: `now` is a parameter, an integer timestamp.
- Interleavings of concurrent requests: a race is two validations on the same
  store followed by commits in sequence. The version check makes one of two
  requests that read the same version fail, but the clock is sampled before the
  read: a request that samples early, re-reads after a concurrent commit and then
  commits can record an earlier time after a later one (for example closedAt
  before resolvedAt). The chronology lemmas therefore assume call times that do
  not go backwards in commit order; the version check does not ensure this.
- The exact error strings, including the misspelling "transistion": errors are a
  tagged datatype.
- `title` and `description`: opaque payload, carried through unchanged.
- The id and the initial `version` of a new incident are database defaults. They
  are not in this source: the id is a fresh parameter, and the version starts at 0.
- Severity keys inherited from the JavaScript object prototype, such as
  "constructor": the lookup on such a key is truthy in JavaScript. The model's
  table has only its four own keys. The database would reject such a value
  as a severity.
- Status values outside the seven enumeration values: the requested status is
  typed `Status` in the source, and the stored status is an enumeration column.
- Whether `createdById` and `ownerId` name existing users: the database's
  foreign keys check this, not this code.
- The owner argument is modelled as optional. The input type declares it
  as a string, but the code defaults it with `??`. So an absent owner falls back
  to the creator, and an empty string does not.
