/** Which alarms the purge and compress actions touch (src/alarms/Filters.h, src/alarms/Filters.cpp). */
module Filters {
  import opened Wrappers
  import opened Key
  import opened Alarms

  datatype Clearance = Any | Cleared | NotCleared

  /** The `severity` container; its choice is not mandatory, so it may be left out. */
  datatype SeveritySpec = Above(level: Level) | Is(level: Level) | Below(level: Level) | NoLevel

  /** The `older-than` container. */
  datatype AgeSpec =
    | Seconds(n: Uint16) | Minutes(n: Uint16) | Hours(n: Uint16) | Days(n: Uint16) | Weeks(n: Uint16)
    | NoAge

  datatype PurgeInput = PurgeInput(clearance: Clearance, severity: Option<SeveritySpec>, olderThan: Option<AgeSpec>)

  datatype CompressInput = CompressInput(resource: Option<string>, alarmTypeId: Option<string>,
                                         alarmTypeQualifier: Option<string>)

  datatype FilterError = InvalidSeverityChoice | InvalidAgeChoice

  // ---------- What the inputs ask for ----------

  predicate ClearanceSelects(c: Clearance, e: Entry) {
    c == Any || (c == Cleared) == e.isCleared
  }

  predicate SeveritySelects(s: SeveritySpec, severity: int) {
    match s
    case Above(l) => l < severity
    case Is(l) => l == severity
    case Below(l) => l > severity
    case NoLevel => false
  }

  function AgeInSeconds(a: AgeSpec): int {
    match a
    case Seconds(n) => n
    case Minutes(n) => 60 * n
    case Hours(n) => 3600 * n
    case Days(n) => 86400 * n
    case Weeks(n) => 604800 * n
    case NoAge => 0
  }

  /** Clock ticks per second: system_clock counts nanoseconds. */
  const TICKS := 1_000_000_000

  predicate AgeSelects(a: AgeSpec, now: Time, e: Entry) {
    e.lastChanged < now - TICKS * AgeInSeconds(a)
  }

  function PurgeProblem(input: PurgeInput): Option<FilterError> {
    if input.severity == Some(NoLevel) then Some(InvalidSeverityChoice)
    else if input.olderThan == Some(NoAge) then Some(InvalidAgeChoice)
    else None
  }

  predicate PurgeSelects(input: PurgeInput, now: Time, e: Entry) {
    && ClearanceSelects(input.clearance, e)
    && (input.severity.Some? ==> SeveritySelects(input.severity.value, e.lastSeverity))
    && (input.olderThan.Some? ==> AgeSelects(input.olderThan.value, now, e))
  }

  predicate CompressSelects(input: CompressInput, key: InstanceKey) {
    && (input.resource.Some? ==> key.resource == input.resource.value)
    && (input.alarmTypeId.Some? ==> key.alarmType.id == input.alarmTypeId.value)
    && (input.alarmTypeQualifier.Some? ==> key.alarmType.qualifier == input.alarmTypeQualifier.value)
  }

  // ---------- The filter objects ----------

  class AlarmFilter {
    var filters: seq<(InstanceKey, Entry) -> bool>

    constructor ()
      ensures filters == []
    {
      filters := [];
    }

    predicate Matches(key: InstanceKey, e: Entry)
      reads this
    {
      forall i :: 0 <= i < |filters| ==> filters[i](key, e)
    }

    method Append(f: (InstanceKey, Entry) -> bool)
      modifies this
      ensures forall k, e :: Matches(k, e) <==> old(Matches(k, e)) && f(k, e)
    {
      filters := filters + [f];
      forall k, e
        ensures Matches(k, e) <==> old(Matches(k, e)) && f(k, e)
      {
        assert filters[|filters| - 1] == f;
        assert forall i :: 0 <= i < |old(filters)| ==> filters[i] == old(filters)[i];
      }
    }
  }

  method PurgeFilter(input: PurgeInput, now: Time) returns (r: Result<AlarmFilter, FilterError>)
    ensures r.Success? <==> PurgeProblem(input).None?
    ensures r.Failure? ==> PurgeProblem(input) == Some(r.error)
    ensures r.Success? ==> fresh(r.value) && forall k, e :: r.value.Matches(k, e) <==> PurgeSelects(input, now, e)
  {
    var filter := new AlarmFilter();
    var clearance := input.clearance;
    filter.Append((_, e: Entry) =>
                    match clearance
                    case Any => true
                    case Cleared => e.isCleared
                    case NotCleared => !e.isCleared);

    if input.severity.Some? {
      var check: int -> bool;
      match input.severity.value {
        case Above(level) => check := severity => level < severity;
        case Is(level) => check := severity => level == severity;
        case Below(level) => check := severity => level > severity;
        case NoLevel => return Failure(InvalidSeverityChoice);
      }
      filter.Append((_, e: Entry) => check(e.lastSeverity));
    }

    if input.olderThan.Some? {
      var threshold := now;
      match input.olderThan.value {
        case Seconds(n) => threshold := threshold - n * TICKS;
        case Minutes(n) => threshold := threshold - n * (60 * TICKS);
        case Hours(n) => threshold := threshold - n * (3600 * TICKS);
        case Days(n) => threshold := threshold - n * (86400 * TICKS);
        case Weeks(n) => threshold := threshold - 7 * n * (86400 * TICKS);
        case NoAge => return Failure(InvalidAgeChoice);
      }
      filter.Append((_, e: Entry) => e.lastChanged < threshold);
    }
    r := Success(filter);
  }

  method CompressFilter(input: CompressInput) returns (filter: AlarmFilter)
    ensures fresh(filter) && forall k, e :: filter.Matches(k, e) <==> CompressSelects(input, k)
  {
    filter := new AlarmFilter();
    if input.resource.Some? {
      var resource := input.resource.value;
      filter.Append((k: InstanceKey, _) => k.resource == resource);
    }
    if input.alarmTypeId.Some? {
      var alarmTypeId := input.alarmTypeId.value;
      filter.Append((k: InstanceKey, _) => k.alarmType.id == alarmTypeId);
    }
    if input.alarmTypeQualifier.Some? {
      var alarmTypeQualifier := input.alarmTypeQualifier.value;
      filter.Append((k: InstanceKey, _) => k.alarmType.qualifier == alarmTypeQualifier);
    }
  }

  // ---------- Properties ----------

  /** Below, is and above a level split the alarms into three disjoint groups that cover everything. */
  lemma {:induction false} SeverityTrichotomy(level: Level, severity: int)
    ensures var b, i, a := SeveritySelects(Below(level), severity), SeveritySelects(Is(level), severity),
                           SeveritySelects(Above(level), severity);
            (b || i || a) && !(b && i) && !(b && a) && !(i && a)
  {
  }
}
