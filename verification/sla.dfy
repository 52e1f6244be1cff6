/** The fixed severity-to-SLA table and the lookup `createIncident` performs on it. */
module Sla {
  import opened Wrappers
  import opened IncidentTypes

  /** Minutes allowed to resolve an incident, keyed by the severity's string value. */
  const SlaTable: map<string, int> := map["LOW" := 240, "MEDIUM" := 120, "HIGH" := 60, "CRITICAL" := 15]

  function SeverityName(s: Severity): string {
    match s
    case Low => "LOW"
    case Medium => "MEDIUM"
    case High => "HIGH"
    case Critical => "CRITICAL"
  }

  /** Parses the string value of a severity; the inverse of `SeverityName`. */
  function ParseSeverity(name: string): (r: Option<Severity>)
    ensures r.Some? ==> SeverityName(r.value) == name
    ensures r.None? ==> forall s :: SeverityName(s) != name
  {
    if name == "LOW" then Some(Low)
    else if name == "MEDIUM" then Some(Medium)
    else if name == "HIGH" then Some(High)
    else if name == "CRITICAL" then Some(Critical)
    else None
  }

  lemma ParseSeverityRoundTrip(s: Severity)
    ensures ParseSeverity(SeverityName(s)) == Some(s)
  {
  }

  /** JavaScript truthiness of a number; NaN cannot occur in the table. */
  predicate Truthy(minutes: int) {
    minutes != 0
  }

  /** The table's keys are exactly the severity names, and every entry is positive. */
  lemma SlaTableCoversSeverities(name: string)
    ensures name in SlaTable <==> ParseSeverity(name).Some?
    ensures name in SlaTable ==> SlaTable[name] > 0
  {
  }

  /** The severity whose string value is a key of the table. */
  function SeverityOfKey(name: string): (s: Severity)
    requires name in SlaTable
    ensures SeverityName(s) == name
  {
    SlaTableCoversSeverities(name);
    ParseSeverity(name).value
  }

  datatype SlaEntry = SlaEntry(severity: Severity, minutes: nat)

  /** Looks `name` up in the table; a missing or falsy entry is an invalid severity. */
  function LookupSla(name: string): (r: Result<SlaEntry, Error>)
    ensures r.Success? <==> ParseSeverity(name).Some?
    ensures r.Success? ==> SeverityName(r.value.severity) == name && r.value.minutes > 0
    ensures r.Failure? ==> r.error == InvalidSeverity(name)
  {
    SlaTableCoversSeverities(name);
    if name !in SlaTable || !Truthy(SlaTable[name]) then Failure(InvalidSeverity(name))
    else Success(SlaEntry(SeverityOfKey(name), SlaTable[name]))
  }

  /** The four targets: LOW 240, MEDIUM 120, HIGH 60, CRITICAL 15 minutes. */
  lemma SlaTargets()
    ensures LookupSla("LOW") == Success(SlaEntry(Low, 240))
    ensures LookupSla("MEDIUM") == Success(SlaEntry(Medium, 120))
    ensures LookupSla("HIGH") == Success(SlaEntry(High, 60))
    ensures LookupSla("CRITICAL") == Success(SlaEntry(Critical, 15))
  {
  }
}
