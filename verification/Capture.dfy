/** The collector's runtime state: capture leases, the pressure trigger and the GPU poll
    schedule, as the methods that update them. */
module Capture {
  import opened Common

  const SECOND: int := 1_000_000_000
  const MAX_ACTIVE_LEASES: nat := 16
  const MAX_TTL: int := 300 * SECOND
  const TRIGGER: int := 60 * SECOND
  const U8_MAX: nat := 255

  datatype LeaseId = LeaseId(text: string)

  datatype Request =
    | Status
    | LeaseStart(ttl: Option<nat>)
    | LeaseRenew(id: Option<LeaseId>, ttl: Option<nat>)
    | LeaseEnd(id: Option<LeaseId>)
    | Unknown

  datatype Reply = Granted(id: LeaseId, seconds: nat) | Renewed(seconds: nat) | Ended(found: bool)
                 | Report(detailActive: bool, activeLeases: nat) | Refused(error: string)

  datatype Reading = High | Low | Unavailable

  // ------------------------------------------------- reference for pressure runs

  /** The readings that count, as "was high". */
  function Seen(readings: seq<Reading>): seq<bool> {
    if readings == [] then []
    else
      var rest := Seen(readings[..|readings| - 1]);
      var last := readings[|readings| - 1];
      if last.Unavailable? then rest else rest + [last.High?]
  }

  /** The lengths of the maximal runs of a value, in order. */
  function RunLengths(list: seq<bool>, value: bool): seq<nat> {
    if list == [] then []
    else
      var init := list[..|list| - 1];
      var runs := RunLengths(init, value);
      if list[|list| - 1] != value then runs
      else if init != [] && init[|init| - 1] == value && runs != [] then runs[..|runs| - 1] + [runs[|runs| - 1] + 1]
      else runs + [1]
  }

  /** How many runs have at least three readings. */
  function LongRuns(runs: seq<nat>): nat {
    if runs == [] then 0
    else LongRuns(runs[..|runs| - 1]) + if runs[|runs| - 1] >= 3 then 1 else 0
  }

  /** The length of the run of a value the list ends in. */
  function Trailing(list: seq<bool>, value: bool): nat {
    if list == [] || list[|list| - 1] != value then 0 else 1 + Trailing(list[..|list| - 1], value)
  }

  /** The last run is the trailing one. */
  lemma {:induction false} TrailingIsLastRun(list: seq<bool>, value: bool)
    ensures Trailing(list, value) > 0 ==>
              var runs := RunLengths(list, value); runs != [] && runs[|runs| - 1] == Trailing(list, value)
  {
    if list != [] {
      TrailingIsLastRun(list[..|list| - 1], value);
    }
  }

  lemma LongRunsAppend(runs: seq<nat>, n: nat)
    ensures LongRuns(runs + [n]) == LongRuns(runs) + if n >= 3 then 1 else 0
  {
    assert (runs + [n])[..|runs|] == runs;
  }

  /** A reading starts a new long run exactly when it is the third of its run. */
  lemma OneMore(list: seq<bool>, b: bool)
    ensures Trailing(list + [b], true) == if b then Trailing(list, true) + 1 else 0
    ensures Trailing(list + [b], false) == if b then 0 else Trailing(list, false) + 1
    ensures LongRuns(RunLengths(list + [b], true))
            == LongRuns(RunLengths(list, true)) + if b && Trailing(list, true) == 2 then 1 else 0
  {
    assert (list + [b])[..|list|] == list;
    TrailingIsLastRun(list, true);
    var runs := RunLengths(list, true);
    if b {
      if Trailing(list, true) > 0 {
        LongRunsAppend(runs[..|runs| - 1], Trailing(list, true) + 1);
      } else {
        LongRunsAppend(runs, 1);
      }
    }
  }

  lemma SeenAppend(readings: seq<Reading>, r: Reading)
    ensures Seen(readings + [r]) == if r.Unavailable? then Seen(readings) else Seen(readings) + [r.High?]
  {
    assert (readings + [r])[..|readings|] == readings;
  }

  function Saturate(n: nat): nat { if n > U8_MAX then U8_MAX else n }

  /** The limits in plain units. */
  lemma Limits()
    ensures MAX_ACTIVE_LEASES == 16 && MAX_TTL == 300_000_000_000 && TRIGGER == 60_000_000_000
    ensures GPU_INTERVAL == 15_000_000_000 && SECOND == 1_000_000_000 && U8_MAX == 255
  {
  }

  // -------------------------------------------------------------------- runtime

  function Running(leases: map<LeaseId, int>, now: int): (live: map<LeaseId, int>)
    ensures live.Keys <= leases.Keys
  {
    map id | id in leases && leases[id] > now :: leases[id]
  }

  /** At most sixteen leases, each running out after now and within 300 seconds. */
  ghost predicate WithinTtl(leases: map<LeaseId, int>, now: int) {
    |leases| <= 16 && forall id :: id in leases ==> now < leases[id] <= now + 300_000_000_000
  }

  lemma RunningTwice(leases: map<LeaseId, int>, now: int, t: int)
    requires t >= now
    ensures Running(Running(leases, now), t) == Running(leases, t)
  {
  }

  /** Granting, renewing and ending are answers to their own commands. */
  predicate Answers(request: Request, reply: Reply) {
    match reply
    case Granted(_, seconds) => request.LeaseStart? && seconds == Clamp(request.ttl)
    case Renewed(seconds) => request.LeaseRenew? && request.id.Some? && seconds == Clamp(request.ttl)
    case Ended(_) => request.LeaseEnd? && request.id.Some?
    case Report(_, _) => request.Status?
    case Refused(_) => !request.Status?
  }

  /** Why a request is refused, given the leases running. */
  ghost function Complaint(request: Request, live: map<LeaseId, int>): string {
    match request
    case Status => ""
    case LeaseStart(_) => if |live| >= 16 then "lease_capacity_reached" else "random_unavailable"
    case LeaseRenew(id, _) => if id.None? then "missing_lease_id" else "unknown_or_expired_lease"
    case LeaseEnd(_) => "missing_lease_id"
    case Unknown => "unknown_command"
  }

  /** The leases after a reply, from those running before. */
  function Served(live: map<LeaseId, int>, request: Request, reply: Reply, now: int): map<LeaseId, int>
    requires Answers(request, reply)
  {
    match reply
    case Granted(id, seconds) => live[id := now + seconds * SECOND]
    case Renewed(seconds) => live[request.id.value := now + seconds * SECOND]
    case Ended(_) => live - {request.id.value}
    case Report(_, _) => live
    case Refused(_) => live
  }

  ghost predicate LeasesOk(leases: map<LeaseId, int>, lastGrant: Option<int>) {
    && |leases| <= MAX_ACTIVE_LEASES
    && forall id :: id in leases ==> lastGrant.Some? && leases[id] <= lastGrant.value + MAX_TTL
  }

  /** The saturating counters measure the current runs; the events counted are the long high runs. */
  ghost predicate PressureOk(high: nat, low: nat, events: nat, readings: seq<Reading>) {
    && high == Saturate(Trailing(Seen(readings), true))
    && low == Saturate(Trailing(Seen(readings), false))
    && events == LongRuns(RunLengths(Seen(readings), true))
  }

  class Runtime {
    var leases: map<LeaseId, int>
    var triggerUntil: Option<int>
    var pressureHigh: nat
    var pressureLow: nat
    var highPressureEvents: nat
    ghost var clock: int
    ghost var lastGrant: Option<int>
    ghost var lastTrigger: Option<int>
    ghost var readings: seq<Reading>

    ghost predicate Valid()
      reads this
    {
      && (lastGrant.Some? ==> lastGrant.value <= clock) && (lastTrigger.Some? ==> lastTrigger.value <= clock)
      && LeasesOk(leases, lastGrant)
      && (triggerUntil.Some? ==> lastTrigger.Some? && triggerUntil.value <= lastTrigger.value + TRIGGER)
      && PressureOk(pressureHigh, pressureLow, highPressureEvents, readings)
    }

    constructor (now: int)
      ensures Valid() && clock == now && readings == [] && lastGrant == None && lastTrigger == None
      ensures leases == map[] && triggerUntil == None
    {
      leases, triggerUntil, pressureHigh, pressureLow, highPressureEvents := map[], None, 0, 0, 0;
      clock, lastGrant, lastTrigger, readings := now, None, None, [];
    }

    /** Drops expired leases and says whether detail capture is on.  It is off once the
        last grant is 300 seconds old and the last trigger 60 seconds. */
    method Detail(now: int) returns (active: bool)
      requires Valid() && now >= clock
      modifies this`leases, this`clock
      ensures Valid() && clock == now
      ensures leases == Running(old(leases), now) && WithinTtl(leases, now)
      ensures forall id :: id in leases <==> id in old(leases) && old(leases)[id] > now
      ensures forall id :: id in leases ==> leases[id] == old(leases)[id]
      ensures active <==> old(CaptureAt(now))
      ensures forall t :: t >= now ==> CaptureAt(t) == old(CaptureAt(t))
      ensures ((lastGrant.None? || now >= lastGrant.value + MAX_TTL) &&
               (lastTrigger.None? || now >= lastTrigger.value + TRIGGER)) ==> !active
    {
      hide PressureOk;
      var live := Running(leases, now);
      forall t | t >= now ensures Running(live, t) == Running(leases, t) {
        RunningTwice(leases, now, t);
      }
      SubmapSize(live, leases);
      leases, clock := live, now;
      active := leases != map[] || (triggerUntil.Some? && triggerUntil.value > now);
    }

    /** Grants or renews a lease. */
    method Grant(id: LeaseId, seconds: nat, now: int)
      requires Valid() && now == clock && 1 <= seconds <= 300
      requires id in leases || |leases| < MAX_ACTIVE_LEASES
      modifies this`leases, this`lastGrant
      ensures Valid() && lastGrant == Some(now) && leases == old(leases)[id := now + seconds * SECOND]
    {
      hide PressureOk;
      GrownSize(leases, id, now + seconds * SECOND);
      leases, lastGrant := leases[id := now + seconds * SECOND], Some(now);
    }

    method StartLease(ttl: Option<nat>, now: int, randomId: Option<LeaseId>) returns (reply: Reply)
      requires Valid() && now == clock && WithinTtl(leases, now)
      modifies this`leases, this`lastGrant
      ensures Valid() && WithinTtl(leases, now)
      ensures reply.Granted? <==> |old(leases)| < MAX_ACTIVE_LEASES && randomId.Some?
      ensures reply.Granted? ==> lastGrant == Some(now) && reply == Granted(randomId.value, Clamp(ttl))
      ensures reply.Granted? ==> leases == old(leases)[randomId.value := now + Clamp(ttl) * SECOND]
      ensures !reply.Granted? ==> reply.Refused? && lastGrant == old(lastGrant) && leases == old(leases)
      ensures reply.Refused? ==> reply.error == if |old(leases)| >= 16 then "lease_capacity_reached" else "random_unavailable"
    {
      if |leases| >= MAX_ACTIVE_LEASES {
        reply := Refused("lease_capacity_reached");
      } else if randomId.None? {
        reply := Refused("random_unavailable");
      } else {
        Grant(randomId.value, Clamp(ttl), now);
        reply := Granted(randomId.value, Clamp(ttl));
      }
    }

    method RenewLease(id: Option<LeaseId>, ttl: Option<nat>, now: int) returns (reply: Reply)
      requires Valid() && now == clock && WithinTtl(leases, now)
      modifies this`leases, this`lastGrant
      ensures Valid() && WithinTtl(leases, now)
      ensures reply.Renewed? <==> id.Some? && id.value in old(leases)
      ensures reply.Renewed? ==> lastGrant == Some(now) && reply == Renewed(Clamp(ttl))
      ensures reply.Renewed? ==> leases == old(leases)[id.value := now + Clamp(ttl) * SECOND]
      ensures !reply.Renewed? ==> reply.Refused? && lastGrant == old(lastGrant) && leases == old(leases)
      ensures reply.Refused? ==> reply.error == if id.None? then "missing_lease_id" else "unknown_or_expired_lease"
    {
      if id.None? {
        reply := Refused("missing_lease_id");
      } else if id.value !in leases {
        reply := Refused("unknown_or_expired_lease");
      } else {
        Grant(id.value, Clamp(ttl), now);
        reply := Renewed(Clamp(ttl));
      }
    }

    method EndLease(id: Option<LeaseId>) returns (reply: Reply)
      requires Valid() && WithinTtl(leases, clock)
      modifies this`leases
      ensures Valid() && WithinTtl(leases, clock)
      ensures id.None? ==> reply == Refused("missing_lease_id") && leases == old(leases)
      ensures id.Some? ==> reply == Ended(id.value in old(leases)) && leases == old(leases) - {id.value}
    {
      hide PressureOk;
      if id.None? {
        reply := Refused("missing_lease_id");
      } else {
        reply := Ended(id.value in leases);
        SubmapSize(leases - {id.value}, leases);
        leases := leases - {id.value};
      }
    }

    /** One control command, on the leases still running.  A start is granted exactly when
        fewer than 16 run, a renewal exactly when its lease runs.  Whatever the command, at
        most 16 leases remain, each running out after now and within 300 seconds. */
    method Dispatch(request: Request, now: int, randomId: Option<LeaseId>) returns (reply: Reply)
      requires Valid() && now >= clock
      modifies this`leases, this`clock, this`lastGrant
      ensures Valid() && clock == now && WithinTtl(leases, now)
      ensures reply.Granted? <==> request.LeaseStart? && |Running(old(leases), now)| < MAX_ACTIVE_LEASES && randomId.Some?
      ensures reply.Renewed? <==> request.LeaseRenew? && request.id.Some? && request.id.value in Running(old(leases), now)
      ensures reply.Ended? ==> reply.found == (request.LeaseEnd? && request.id.Some? && request.id.value in Running(old(leases), now))
      ensures Answers(request, reply) && leases == Served(Running(old(leases), now), request, reply, now)
      ensures lastGrant == if reply.Granted? || reply.Renewed? then Some(now) else old(lastGrant)
      ensures request.Status? ==> reply == Report(CaptureAt(now), |leases|)
      ensures reply.Refused? ==> reply.error == Complaint(request, Running(old(leases), now))
    {
      hide PressureOk, Running, LeasesOk, WithinTtl;
      var active := Detail(now);
      match request {
        case Status => reply := Report(active, |leases|);
        case LeaseStart(ttl) => reply := StartLease(ttl, now, randomId);
        case LeaseRenew(id, ttl) => reply := RenewLease(id, ttl, now);
        case LeaseEnd(id) => reply := EndLease(id);
        case Unknown => reply := Refused("unknown_command");
      }
    }

    /** Whether detail capture is on at a later instant if nothing else happens. */
    ghost predicate CaptureAt(t: int)
      reads this`leases, this`triggerUntil
    {
      Running(leases, t) != map[] || (triggerUntil.Some? && triggerUntil.value > t)
    }

    /** A failed or stopped service sets the trigger: if nothing else happened, capture would
        be on for exactly the next 60 seconds and then while a lease runs. */
    method ServiceTransition(now: int)
      requires Valid() && now >= clock
      modifies this`triggerUntil, this`clock, this`lastTrigger
      ensures Valid() && clock == now && lastTrigger == Some(now) && triggerUntil == Some(now + TRIGGER)
      ensures forall t :: now <= t < now + TRIGGER ==> CaptureAt(t)
      ensures forall t :: t >= now + TRIGGER ==> (CaptureAt(t) <==> Running(leases, t) != map[])
    {
      hide PressureOk, LeasesOk;
      triggerUntil, clock, lastTrigger := Some(now + TRIGGER), now, Some(now);
    }

    /** One pressure reading.  The event count is the number of maximal high runs of at
        least three readings; a trigger is cleared only after three lows and with no lease. */
    method Pressure(reading: Reading, now: int)
      requires Valid() && now >= clock
      modifies this`pressureHigh, this`pressureLow, this`triggerUntil, this`highPressureEvents, this`clock, this`lastTrigger, this`readings
      ensures Valid() && clock == now && readings == old(readings) + [reading]
      ensures highPressureEvents == LongRuns(RunLengths(Seen(readings), true))
      ensures triggerUntil == (
                if reading.High? && Trailing(Seen(readings), true) >= 3 then Some(now + TRIGGER)
                else if reading.Low? && Trailing(Seen(readings), false) >= 3 && leases == map[] then None
                else old(triggerUntil))
      ensures lastTrigger == if reading.High? && Trailing(Seen(readings), true) >= 3 then Some(now) else old(lastTrigger)
    {
      hide Seen, RunLengths, LongRuns, Trailing, LeasesOk;
      SeenAppend(readings, reading);
      OneMore(Seen(readings), reading.High?);
      readings, clock := readings + [reading], now;
      match reading {
        case High =>
          pressureHigh, pressureLow := if pressureHigh < U8_MAX then pressureHigh + 1 else pressureHigh, 0;
          if pressureHigh >= 3 {
            triggerUntil, lastTrigger := Some(now + TRIGGER), Some(now);
            if pressureHigh == 3 {
              highPressureEvents := highPressureEvents + 1;
            }
          }
        case Low =>
          pressureLow, pressureHigh := if pressureLow < U8_MAX then pressureLow + 1 else pressureLow, 0;
          if pressureLow >= 3 && leases == map[] {
            triggerUntil := None;
          }
        case Unavailable =>
      }
    }

    /** One pass of the collector: service states first, then the pressure reading of the
        same instant, then the decision.  A failed service gets its 60 seconds of capture if
        and only if the reading does not complete three lows while no lease is held; if it
        does, the capture never starts. */
    method Pass(failed: bool, reading: Reading, now: int) returns (active: bool)
      requires Valid() && now >= clock
      modifies this`leases, this`triggerUntil, this`pressureHigh, this`pressureLow, this`highPressureEvents, this`clock, this`lastTrigger, this`readings
      ensures Valid() && clock == now && readings == old(readings) + [reading]
      ensures leases == Running(old(leases), now) && active == CaptureAt(now)
      ensures triggerUntil ==
              if reading.High? && Trailing(Seen(readings), true) >= 3 then Some(now + TRIGGER)
              else if Recovers(old(readings), reading, old(leases)) then None
              else if failed then Some(now + TRIGGER) else old(triggerUntil)
      ensures failed ==> ((forall t :: now <= t < now + TRIGGER ==> CaptureAt(t)) <==>
                          !Recovers(old(readings), reading, old(leases)))
      ensures Recovers(old(readings), reading, old(leases)) ==> forall t :: t >= now ==> !CaptureAt(t)
      ensures failed ==> lastTrigger == Some(now)
    {
      hide PressureOk, LeasesOk, Seen, Trailing, RunLengths, LongRuns;
      SeenAppend(readings, reading);
      OneMore(Seen(readings), reading.High?);
      if failed {
        ServiceTransition(now);
      }
      assert failed ==> triggerUntil == Some(now + TRIGGER);
      Pressure(reading, now);
      NothingRuns(now);
      assert reading.Low? && Trailing(Seen(readings), false) >= 3 && leases == map[] ==> !CaptureAt(now);
      active := Detail(now);
    }
  }

  /** The reading is the third or a later low in a row, and no lease is on the books. */
  predicate Recovers(readings: seq<Reading>, reading: Reading, leases: map<LeaseId, int>) {
    reading.Low? && Trailing(Seen(readings), false) >= 2 && leases == map[]
  }

  lemma NothingRuns(now: int)
    ensures forall t :: Running(map[], t) == map[]
  {
  }

  /** A service fails on a quiet host: the third low in a row clears the trigger in the very
      pass that set it, and no detail is captured. */
  method QuietHostMissesFailure() returns (first: bool, second: bool, third: bool)
    ensures !first && !second && !third
  {
    var runtime := new Runtime(0);
    NoneSeen();
    NothingRuns(0);
    first := runtime.Pass(false, Low, 0);
    LowsSeen([]);
    second := runtime.Pass(false, Low, 5 * SECOND);
    LowsSeen([Low]);
    assert [] + [Low] == [Low] && runtime.readings == [Low] + [Low];
    third := runtime.Pass(true, Low, 10 * SECOND);
  }

  lemma NoneSeen()
    ensures Trailing(Seen([]), false) == 0
  {
  }

  lemma LowsSeen(readings: seq<Reading>)
    ensures Trailing(Seen(readings + [Low]), false) == Trailing(Seen(readings), false) + 1
  {
    SeenAppend(readings, Low);
    OneMore(Seen(readings), false);
  }

  function Clamp(ttl: Option<nat>): (seconds: nat)
    ensures 1 <= seconds <= 300
    ensures ttl.Some? && 1 <= ttl.value <= 300 ==> seconds == ttl.value
    ensures ttl.None? ==> seconds == 30
    ensures ttl.Some? && ttl.value < 1 ==> seconds == 1
    ensures ttl.Some? && ttl.value > 300 ==> seconds == 300
  {
    var n := if ttl.None? then 30 else ttl.value;
    if n < 1 then 1 else if n > 300 then 300 else n
  }

  lemma SubmapSize(a: map<LeaseId, int>, b: map<LeaseId, int>)
    requires a.Keys <= b.Keys
    ensures |a| <= |b|
  {
    assert b.Keys == a.Keys + (b.Keys - a.Keys);
    assert |a.Keys| <= |b.Keys|;
  }

  lemma GrownSize(m: map<LeaseId, int>, id: LeaseId, until: int)
    ensures |m[id := until]| == if id in m then |m| else |m| + 1
  {
    assert m[id := until].Keys == m.Keys + {id};
    assert id in m ==> m.Keys + {id} == m.Keys;
  }

  // -------------------------------------------------------------- GPU schedule

  const GPU_INTERVAL: int := 15 * SECOND
  const U32_MAX: int := 0xffff_ffff

  /** The first instant of the poll grid after now. */
  function NextPoll(now: int, next: int): (r: int)
    requires now >= next
    ensures now < r <= now + GPU_INTERVAL && r >= next + GPU_INTERVAL
    ensures now - next < 4_294_967_295 * 15_000_000_000 ==> (r - next) % 15_000_000_000 == 0
  {
    var periods := (now - next) / SECOND / 15 + 1;
    if periods <= U32_MAX then next + GPU_INTERVAL * periods else now + GPU_INTERVAL
  }

  /** Polls at instants `polls`, the next not before `next`. */
  class GpuSchedule {
    var next: int
    ghost var polls: seq<int>

    /** However the calls were timed, k polls span more than 15 * (k - 2) seconds. */
    ghost predicate Valid()
      reads this
    {
      && (forall i :: 0 <= i < |polls| ==> next > polls[i] + GPU_INTERVAL * (|polls| - 1 - i))
      && (forall i, j :: 0 <= i < j < |polls| ==> polls[j] - polls[i] > GPU_INTERVAL * (j - i - 1))
    }

    constructor (start: int)
      ensures Valid() && next == start && polls == []
    {
      next, polls := start, [];
    }

    /** `gpu_poll_due`: a stalled loop skips the missed polls instead of catching up. */
    method PollDue(now: int, pending: bool) returns (due: bool)
      requires Valid()
      modifies this
      ensures Valid()
      ensures due <==> !pending && now >= old(next)
      ensures polls == if due then old(polls) + [now] else old(polls)
      ensures !due ==> next == old(next)
      ensures due ==> now < next <= now + GPU_INTERVAL && next >= old(next) + GPU_INTERVAL
      ensures due && now - old(next) < 4_294_967_295 * 15_000_000_000 ==> (next - old(next)) % 15_000_000_000 == 0
    {
      due := !pending && now >= next;
      if due {
        next, polls := NextPoll(now, next), polls + [now];
      }
    }
  }
}
