/** The two operations of the incident service, `createIncident` and
    `updateStatus`, over an abstract store. The store stands for the database:
    incidents by id, users by id with their role, and the append-only list of
    comments. The clock and freshly generated ids are parameters. */
module IncidentService {
  import opened Wrappers
  import opened IncidentTypes
  import opened Sla
  import opened AuditMessage
  import opened Lifecycle

  datatype Store = Store(incidents: map<IncidentId, Incident>, users: map<UserId, Role>, comments: seq<Comment>)

  /** The store after a call, and what the call returned or failed with. */
  datatype Reply = Reply(store: Store, result: Result<Incident, Error>)

  /** Arguments of `createIncident`; the severity is the string value the caller sent. */
  datatype CreateInput = CreateInput(severity: string, createdById: UserId, ownerId: Option<UserId>)

  /** Arguments of `updateStatus`. */
  datatype UpdateInput = UpdateInput(incidentId: IncidentId, newStatus: Status, userId: UserId)

  /** The version a new incident starts with. */
  const InitialVersion: nat := 0

  /** Every stored incident is stored under its own id. */
  predicate Keyed(store: Store) {
    forall k :: k in store.incidents ==> store.incidents[k].id == k
  }

  /** Every stored incident satisfies the lifecycle invariant. */
  predicate AllConsistent(store: Store) {
    forall k :: k in store.incidents ==> Consistent(store.incidents[k].status, store.incidents[k].clocks)
  }

  /** The fields a status change never touches. */
  predicate SameIdentity(a: Incident, b: Incident) {
    && a.id == b.id
    && a.severity == b.severity
    && a.slaTargetMinutes == b.slaTargetMinutes
    && a.ownerId == b.ownerId
    && a.createdById == b.createdById
  }

  /** Creates an OPEN incident under the fresh id `id` with its SLA clock started at `now`. */
  function CreateIncident(store: Store, input: CreateInput, id: IncidentId, now: Timestamp): (r: Reply)
    requires id !in store.incidents
    ensures r.result.Success? <==> ParseSeverity(input.severity).Some?
    ensures r.result.Failure? ==> r.result.error == InvalidSeverity(input.severity) && r.store == store
    ensures r.result.Success? ==>
      var inc := r.result.value;
      && inc.id == id
      && SeverityName(inc.severity) == input.severity
      && inc.status == Open
      && inc.slaTargetMinutes == SlaTable[input.severity]
      && inc.clocks == Clocks(None, None, None, now)
      && inc.ownerId == (if input.ownerId.Some? then input.ownerId.value else input.createdById)
      && inc.createdById == input.createdById
      && inc.version == InitialVersion
      // one record inserted, and no comment written
      && r.store.incidents.Keys == store.incidents.Keys + {id}
      && r.store.incidents[id] == inc
      && (forall k :: k in store.incidents ==> r.store.incidents[k] == store.incidents[k])
      && r.store.users == store.users
      && r.store.comments == store.comments
  {
    match LookupSla(input.severity)
    case Failure(e) => Reply(store, Failure(e))
    case Success(entry) =>
      var inc := Incident(id, entry.severity, Open, entry.minutes, InitialClocks(now),
                          input.ownerId.OrElse(input.createdById), input.createdById, InitialVersion);
      Reply(store.(incidents := store.incidents[id := inc]), Success(inc))
  }

  /** Only an administrator or the incident's current owner may change its status. */
  predicate MayChangeStatus(userId: UserId, role: Role, incident: Incident) {
    role == Admin || userId == incident.ownerId
  }

  /** What `updateStatus` has decided to write once every check has passed. */
  datatype Plan = Plan(incidentId: IncidentId, readVersion: nat, newStatus: Status, clocks: Clocks, comment: Comment)

  /** The read-and-validate half of `updateStatus`: loads the incident and the user,
      checks authorization, runs the state machine and builds the audit comment. */
  function Prepare(store: Store, input: UpdateInput, now: Timestamp): (r: Result<Plan, Error>)
    // the checks, in the order they run
    ensures input.incidentId !in store.incidents ==>
      r == Failure(IncidentNotFound(input.incidentId))
    ensures input.incidentId in store.incidents && input.userId !in store.users ==>
      r == Failure(UserNotFound(input.userId))
    ensures (&& input.incidentId in store.incidents && input.userId in store.users
             && !MayChangeStatus(input.userId, store.users[input.userId], store.incidents[input.incidentId])) ==>
      r == Failure(Unauthorized(input.userId))
    ensures (&& input.incidentId in store.incidents && input.userId in store.users
             && MayChangeStatus(input.userId, store.users[input.userId], store.incidents[input.incidentId])
             && (store.incidents[input.incidentId].status, input.newStatus) !in LegalTransitions) ==>
      r == Failure(TransitionError(store.incidents[input.incidentId].status, input.newStatus))
    ensures r.Success? <==>
      && input.incidentId in store.incidents
      && input.userId in store.users
      && MayChangeStatus(input.userId, store.users[input.userId], store.incidents[input.incidentId])
      && (store.incidents[input.incidentId].status, input.newStatus) in LegalTransitions
    ensures r.Success? ==>
      var incident := store.incidents[input.incidentId];
      && r.value.incidentId == input.incidentId
      && r.value.readVersion == incident.version
      && r.value.newStatus == input.newStatus
      && Transition(incident.status, input.newStatus, now, incident.clocks) == Success(r.value.clocks)
      && r.value.comment == Comment(input.incidentId, input.userId, BuildStatusMessage(incident.status, input.newStatus), SystemEvent)
  {
    if input.incidentId !in store.incidents then Failure(IncidentNotFound(input.incidentId))
    else
      var incident := store.incidents[input.incidentId];
      if input.userId !in store.users then Failure(UserNotFound(input.userId))
      else if !MayChangeStatus(input.userId, store.users[input.userId], incident) then Failure(Unauthorized(input.userId))
      else match Transition(incident.status, input.newStatus, now, incident.clocks)
        case Failure(e) => Failure(e)
        case Success(clocks) =>
          var message := BuildStatusMessage(incident.status, input.newStatus);
          Success(Plan(input.incidentId, incident.version, input.newStatus, clocks,
                       Comment(input.incidentId, input.userId, message, SystemEvent)))
  }

  /** The transactional half of `updateStatus`, run against the store as it is at
      commit time: the update is conditioned on the version read, and the update
      and the comment insertion take effect together or not at all. */
  function Commit(store: Store, plan: Plan): (r: Reply)
    ensures r.result.Success? <==>
      plan.incidentId in store.incidents && store.incidents[plan.incidentId].version == plan.readVersion
    ensures r.result.Failure? ==>
      r.store == store && r.result.error == ConcurrentModification(plan.incidentId, plan.readVersion)
    ensures r.result.Success? ==>
      var before := store.incidents[plan.incidentId];
      var after := r.result.value;
      && after.status == plan.newStatus
      && after.clocks == plan.clocks
      && after.version == plan.readVersion + 1
      && SameIdentity(before, after)
      && r.store.incidents.Keys == store.incidents.Keys
      && r.store.incidents[plan.incidentId] == after
      && (forall k :: k in store.incidents && k != plan.incidentId ==> r.store.incidents[k] == store.incidents[k])
      && r.store.users == store.users
      && r.store.comments == store.comments + [plan.comment]
  {
    if plan.incidentId in store.incidents && store.incidents[plan.incidentId].version == plan.readVersion then
      var stored := store.incidents[plan.incidentId];
      var updated := stored.(status := plan.newStatus, clocks := plan.clocks, version := stored.version + 1);
      Reply(Store(store.incidents[plan.incidentId := updated], store.users, store.comments + [plan.comment]),
            Success(updated))
    else
      Reply(store, Failure(ConcurrentModification(plan.incidentId, plan.readVersion)))
  }

  /** `updateStatus` run alone: validate against the current store, then commit. */
  function UpdateStatus(store: Store, input: UpdateInput, now: Timestamp): (r: Reply)
    // the checks, in the order they run
    ensures input.incidentId !in store.incidents ==>
      r.result == Failure(IncidentNotFound(input.incidentId))
    ensures input.incidentId in store.incidents && input.userId !in store.users ==>
      r.result == Failure(UserNotFound(input.userId))
    ensures (&& input.incidentId in store.incidents && input.userId in store.users
             && !MayChangeStatus(input.userId, store.users[input.userId], store.incidents[input.incidentId])) ==>
      r.result == Failure(Unauthorized(input.userId))
    ensures (&& input.incidentId in store.incidents && input.userId in store.users
             && MayChangeStatus(input.userId, store.users[input.userId], store.incidents[input.incidentId])
             && (store.incidents[input.incidentId].status, input.newStatus) !in LegalTransitions) ==>
      r.result == Failure(TransitionError(store.incidents[input.incidentId].status, input.newStatus))
    // a failure writes nothing
    ensures r.result.Failure? ==> r.store == store
    ensures r.result.Success? ==>
      var before := store.incidents[input.incidentId];
      var after := r.result.value;
      && after.status == input.newStatus
      && after.version == before.version + 1
      && Transition(before.status, input.newStatus, now, before.clocks) == Success(after.clocks)
      && SameIdentity(before, after)
      && r.store.incidents == store.incidents[input.incidentId := after]
      && r.store.users == store.users
      && r.store.comments == store.comments
           + [Comment(input.incidentId, input.userId, BuildStatusMessage(before.status, input.newStatus), SystemEvent)]
  {
    match Prepare(store, input, now)
    case Failure(e) => Reply(store, Failure(e))
    case Success(plan) => Commit(store, plan)
  }

  /** The authorization guard, for every incident status and every requested status:
      an accepted change was requested by an administrator or by the incident's
      owner, and a non-administrator who is not the owner is refused before the
      state machine is consulted, with nothing written. */
  lemma OnlyAdminOrOwnerChangesStatus(store: Store, input: UpdateInput, now: Timestamp)
    ensures UpdateStatus(store, input, now).result.Success? ==>
      && input.userId in store.users && input.incidentId in store.incidents
      && (store.users[input.userId] == Admin || input.userId == store.incidents[input.incidentId].ownerId)
    ensures (&& input.incidentId in store.incidents && input.userId in store.users
             && store.users[input.userId] == NonAdmin
             && input.userId != store.incidents[input.incidentId].ownerId) ==>
      UpdateStatus(store, input, now) == Reply(store, Failure(Unauthorized(input.userId)))
  {
  }

  /** Run alone, `updateStatus` succeeds exactly when every check passes: the
      version it read is still the stored one when it commits. */
  lemma SequentialUpdateCommits(store: Store, input: UpdateInput, now: Timestamp)
    ensures UpdateStatus(store, input, now).result.Success? <==> Prepare(store, input, now).Success?
  {
  }

  /** Two requests that read the same version of one incident: whichever commits
      second finds the version moved on and writes nothing, so exactly one status
      change and exactly one comment land. */
  lemma RacingUpdatesSerialize(s0: Store, first: UpdateInput, second: UpdateInput, now1: Timestamp, now2: Timestamp)
    requires first.incidentId == second.incidentId
    requires Prepare(s0, first, now1).Success? && Prepare(s0, second, now2).Success?
    ensures
      var id := first.incidentId;
      var r1 := Commit(s0, Prepare(s0, first, now1).value);
      var r2 := Commit(r1.store, Prepare(s0, second, now2).value);
      && r1.result.Success?
      && r2.result == Failure(ConcurrentModification(id, s0.incidents[id].version))
      && r2.store == r1.store
      && r2.store.incidents[id].version == s0.incidents[id].version + 1
      && |r2.store.comments| == |s0.comments| + 1
  {
  }

  /** Both operations keep every incident under its own id and within the lifecycle invariant. */
  lemma OperationsKeepStoreInvariant(store: Store, create: CreateInput, id: IncidentId, update: UpdateInput, now: Timestamp)
    requires Keyed(store) && AllConsistent(store)
    requires id !in store.incidents
    ensures Keyed(CreateIncident(store, create, id, now).store)
    ensures AllConsistent(CreateIncident(store, create, id, now).store)
    ensures Keyed(UpdateStatus(store, update, now).store)
    ensures AllConsistent(UpdateStatus(store, update, now).store)
  {
    var r := UpdateStatus(store, update, now);
    if r.result.Success? {
      var before := store.incidents[update.incidentId];
      TransitionKeepsConsistent(before.status, update.newStatus, now, before.clocks);
    }
  }

  /** A status change requested at time `now`. */
  datatype Request = Request(input: UpdateInput, now: Timestamp)

  /** The store after running `reqs` one after another. */
  function Run(store: Store, reqs: seq<Request>): Store
    decreases |reqs|
  {
    if |reqs| == 0 then store
    else Run(UpdateStatus(store, reqs[0].input, reqs[0].now).store, reqs[1..])
  }

  /** How many of `reqs` succeed; with `only`, counting just those on that incident. */
  function Accepted(store: Store, reqs: seq<Request>, only: Option<IncidentId>): nat
    decreases |reqs|
  {
    if |reqs| == 0 then 0
    else
      var r := UpdateStatus(store, reqs[0].input, reqs[0].now);
      var counted := r.result.Success? && (only.None? || only.value == reqs[0].input.incidentId);
      (if counted then 1 else 0) + Accepted(r.store, reqs[1..], only)
  }

  /** Over any run of status changes the comment list is only appended to, with one
      SYSTEM_EVENT comment per accepted change, and each incident's version grows by
      exactly the number of accepted changes to it. */
  lemma {:induction false} RunKeepsAuditTrail(store: Store, reqs: seq<Request>, id: IncidentId)
    ensures Run(store, reqs).incidents.Keys == store.incidents.Keys
    ensures Run(store, reqs).users == store.users
    ensures store.comments <= Run(store, reqs).comments
    ensures |Run(store, reqs).comments| == |store.comments| + Accepted(store, reqs, None)
    ensures forall k :: |store.comments| <= k < |Run(store, reqs).comments| ==>
      Run(store, reqs).comments[k].kind == SystemEvent
    ensures id in store.incidents ==>
      Run(store, reqs).incidents[id].version == store.incidents[id].version + Accepted(store, reqs, Some(id))
    decreases |reqs|
  {
    if |reqs| > 0 {
      var next := UpdateStatus(store, reqs[0].input, reqs[0].now).store;
      RunKeepsAuditTrail(next, reqs[1..], id);
      var final := Run(store, reqs);
      assert final == Run(next, reqs[1..]);
      forall k | |store.comments| <= k < |final.comments|
        ensures final.comments[k].kind == SystemEvent
      {
        if k >= |next.comments| {
        } else {
          assert final.comments[k] == next.comments[k];
        }
      }
    }
  }

  // The life of one CRITICAL incident "i1" owned by its creator "owner": created,
  // worked through to CLOSED, then reopened. Each stage starts from the store the
  // previous one ends in.

  /** The incident record "i1" holds after creation at time 100 and `accepted` status changes. */
  function Owned(status: Status, clocks: Clocks, accepted: nat): Incident {
    Incident("i1", Critical, status, 15, clocks, "owner", "owner", InitialVersion + accepted)
  }

  lemma ScenarioCreate(s0: Store)
    requires s0.incidents == map[] && s0.comments == []
    ensures
      var created := CreateIncident(s0, CreateInput("CRITICAL", "owner", None), "i1", 100);
      && created.result.Success?
      && created.result.value.slaTargetMinutes == 15
      && created.result.value.status == Open
      && created.store == s0.(incidents := map["i1" := Owned(Open, InitialClocks(100), 0)])
  {
    SlaTargets();
  }

  lemma ScenarioAcknowledge(s1: Store)
    requires s1.incidents == map["i1" := Owned(Open, InitialClocks(100), 0)]
    requires s1.comments == [] && "owner" in s1.users
    ensures
      var ack := UpdateStatus(s1, UpdateInput("i1", Investigating, "owner"), 200);
      && ack.result == Success(Owned(Investigating, Clocks(Some(200), None, None, 100), 1))
      && ack.store.incidents == map["i1" := ack.result.value]
      && ack.store.users == s1.users
      && ack.store.comments == [Comment("i1", "owner", "Status changed from OPEN to INVESTIGATING", SystemEvent)]
  {
    assert BuildStatusMessage(Open, Investigating) == "Status changed from OPEN to INVESTIGATING";
  }

  /** One accepted change by "owner" of the only stored incident "i1". */
  lemma ScenarioStep(s: Store, from: Status, c: Clocks, n: nat, to: Status, now: Timestamp)
    requires s.incidents == map["i1" := Owned(from, c, n)] && "owner" in s.users
    requires (from, to) in LegalTransitions
    ensures
      var r := UpdateStatus(s, UpdateInput("i1", to, "owner"), now);
      && r.store.incidents == map["i1" := Owned(to, Transition(from, to, now, c).value, n + 1)]
      && r.store.users == s.users
      && |r.store.comments| == |s.comments| + 1
  {
  }

  lemma ScenarioWorkToClosed(s2: Store)
    requires s2.incidents == map["i1" := Owned(Investigating, Clocks(Some(200), None, None, 100), 1)]
    requires |s2.comments| == 1 && "owner" in s2.users
    ensures
      var closed := Run(s2, [Request(UpdateInput("i1", Identified, "owner"), 300),
                             Request(UpdateInput("i1", Mitigated, "owner"), 400),
                             Request(UpdateInput("i1", Resolved, "owner"), 500),
                             Request(UpdateInput("i1", Closed, "owner"), 600)]);
      && closed.incidents == map["i1" := Owned(Closed, Clocks(Some(200), Some(500), Some(600), 100), 5)]
      && closed.users == s2.users
      && |closed.comments| == 5
  {
    var steps := [Request(UpdateInput("i1", Identified, "owner"), 300),
                  Request(UpdateInput("i1", Mitigated, "owner"), 400),
                  Request(UpdateInput("i1", Resolved, "owner"), 500),
                  Request(UpdateInput("i1", Closed, "owner"), 600)];
    var c := Clocks(Some(200), None, None, 100);
    ScenarioStep(s2, Investigating, c, 1, Identified, 300);
    var s3 := UpdateStatus(s2, steps[0].input, steps[0].now).store;
    ScenarioStep(s3, Identified, c, 2, Mitigated, 400);
    var s4 := UpdateStatus(s3, steps[1].input, steps[1].now).store;
    ScenarioStep(s4, Mitigated, c, 3, Resolved, 500);
    var s5 := UpdateStatus(s4, steps[2].input, steps[2].now).store;
    var c5 := Clocks(Some(200), Some(500), None, 100);
    ScenarioStep(s5, Resolved, c5, 4, Closed, 600);
    var s6 := UpdateStatus(s5, steps[3].input, steps[3].now).store;
    assert Run(s2, steps) == Run(s3, steps[1..]);
    assert Run(s3, steps[1..]) == Run(s4, steps[2..]);
    assert Run(s4, steps[2..]) == Run(s5, steps[3..]);
    assert Run(s5, steps[3..]) == Run(s6, []);
  }

  lemma ScenarioReopen(s6: Store)
    requires s6.incidents == map["i1" := Owned(Closed, Clocks(Some(200), Some(500), Some(600), 100), 5)]
    requires |s6.comments| == 5 && "owner" in s6.users
    ensures
      var reopened := UpdateStatus(s6, UpdateInput("i1", Investigating, "owner"), 700);
      && reopened.result == Success(Owned(Investigating, InitialClocks(700), 6))
      && |reopened.store.comments| == 6
      && Contains(reopened.store.comments[5].message, "reopened")
  {
    ReopenedIff(Closed, Investigating);
  }
}
