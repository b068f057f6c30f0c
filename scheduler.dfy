/** The background schedule of main.py: `_auto_trigger_task` stamps every
    entry with the start instant and then polls; each poll outside the
    exclusion window runs `execute`, which walks the entries in list order,
    sends to every entry that is due and advances an entry's timer only when
    its send returned normally. */
module Scheduler {
  import opened Wrappers
  import opened Text
  import opened TimeWindow
  import opened ImageDelivery

  /** Timestamps are integer microseconds; intervals are configured in seconds. */
  const MicrosPerSecond := 1_000_000

  /** The `user_type` table: schedule type to message kind of the address. */
  const UserType: map<string, string> := map["FRIEND" := "FriendMessage", "GROUP" := "GroupMessage"]

  /** One element of the schedule list: its configured keys (`r18` and
      `send_forward` may be absent) and the `last_activity` stamp. */
  datatype Entry = Entry(
    id: string,
    kind: string,
    intervalSec: int,
    r18: Option<int>,
    sendForward: Option<bool>,
    lastActivity: int)

  /** The plugin configuration the scheduler reads. */
  datatype Settings = Settings(
    imageSize: string,
    botQQ: string,
    excludeStart: string,
    excludeEnd: string)

  /** What the outside world does while one entry is processed: the clock read
      for the due check, the clock read after the send, the API's answer and
      the host send's outcome. Only the readings of entries that are reached
      and due are used. */
  datatype Readings = Readings(
    checkedAt: int,
    sentAt: int,
    response: ApiResponse,
    delivery: Delivery)

  /** One send attempt, in the order the pass made them. */
  datatype Attempt = Attempt(address: string, request: Request, forward: bool, result: SendImgResult)

  /** The outcome of `execute` over the whole list: the new entries, the
      attempts made, and whether an unknown type raised out of the pass. */
  datatype PassResult = PassResult(entries: seq<Entry>, attempts: seq<Attempt>, aborted: bool)

  /** What one poll of the loop did. */
  datatype TickOutcome = Excluded | Ran(attempts: seq<Attempt>, aborted: bool)

  /** The destination `aiocqhttp:<kind>:<id>`; `None` is the `KeyError` of an
      unmapped type. */
  function Address(kind: string, id: string): (r: Option<string>)
    ensures r.Some? <==> kind in UserType
  {
    if kind in UserType then Some("aiocqhttp:" + UserType[kind] + ":" + id) else None
  }

  /** The address is three colon-separated fields: transport, message kind and
      id, so for an id without a colon the id can be read back from it. */
  lemma AddressFields(kind: string, id: string)
    requires kind in UserType && ':' !in id
    ensures Split(Address(kind, id).value, ':') == ["aiocqhttp", UserType[kind], id]
  {
    var fields := ["aiocqhttp", UserType[kind], id];
    assert ':' !in UserType[kind];
    assert Join(fields[2..], ':') == id;
    assert Join(fields[1..], ':') == UserType[kind] + ":" + id;
    assert Join(fields, ':') == Address(kind, id).value;
    SplitJoin(fields, ':');
  }

  /** `time_diff > interval_sec`, strictly. */
  predicate Due(e: Entry, now: int) {
    now - e.lastActivity > e.intervalSec * MicrosPerSecond
  }

  /** A due entry whose type is not in the table raises out of the pass. */
  predicate Aborts(e: Entry, r: Readings) {
    Due(e, r.checkedAt) && e.kind !in UserType
  }

  /** The attempt a due entry of known type makes. */
  function AttemptFor(s: Settings, e: Entry, r: Readings): (a: Attempt)
    requires e.kind in UserType
    ensures a.address == Address(e.kind, e.id).value
    ensures a.request == BuildRequest(s.imageSize, e.r18.GetOr(0))
    ensures a.forward == e.sendForward.GetOr(false)
  {
    var address := Address(e.kind, e.id).value;
    var forward := e.sendForward.GetOr(false);
    Attempt(address, BuildRequest(s.imageSize, e.r18.GetOr(0)), forward,
            SendImg(s.imageSize, s.botQQ, address, forward, r.response, r.delivery))
  }

  /** The entry after a pass that reached it without raising on it: restamped
      with the post-send clock when it was due and its send returned normally,
      unchanged otherwise. */
  function Settled(s: Settings, e: Entry, r: Readings): (e': Entry)
    ensures e' == e.(lastActivity := e'.lastActivity)
    ensures e'.lastActivity == e.lastActivity || e'.lastActivity == r.sentAt
    ensures e' != e ==>
              && Due(e, r.checkedAt) && e.kind in UserType
              && Succeeded(AttemptFor(s, e, r).result) && e'.lastActivity == r.sentAt
  {
    if Due(e, r.checkedAt) && e.kind in UserType && Succeeded(AttemptFor(s, e, r).result)
    then e.(lastActivity := r.sentAt)
    else e
  }

  /** The pass over the first `k` entries, as the loop of `execute` runs it. */
  function Pass(s: Settings, es: seq<Entry>, world: seq<Readings>, k: nat): (p: PassResult)
    requires |world| == |es| && k <= |es|
    ensures |p.entries| == |es|
    ensures forall j :: k <= j < |es| ==> p.entries[j] == es[j]
  {
    if k == 0 then PassResult(es, [], false)
    else
      var p := Pass(s, es, world, k - 1);
      var e, r := es[k - 1], world[k - 1];
      if p.aborted || !Due(e, r.checkedAt) then p
      else if e.kind !in UserType then p.(aborted := true)
      else
        var a := AttemptFor(s, e, r);
        PassResult(p.entries[k - 1 := Settled(s, e, r)], p.attempts + [a], false)
  }

  /** Reference definition of where a pass stops: the first entry from `from`
      on that raises, or the length of the list. */
  function FirstAbort(es: seq<Entry>, world: seq<Readings>, from: nat): (stop: nat)
    requires |world| == |es| && from <= |es|
    ensures from <= stop <= |es|
    ensures forall j :: from <= j < stop ==> !Aborts(es[j], world[j])
    ensures stop < |es| ==> Aborts(es[stop], world[stop])
    decreases |es| - from
  {
    if from == |es| || Aborts(es[from], world[from]) then from
    else FirstAbort(es, world, from + 1)
  }

  /** Reference definition of the attempt log: one attempt per due entry
      among the first `k`, in list order. */
  function DueAttempts(s: Settings, es: seq<Entry>, world: seq<Readings>, k: nat): (log: seq<Attempt>)
    requires |world| == |es| && k <= |es|
    requires forall j :: 0 <= j < k ==> !Aborts(es[j], world[j])
    ensures |log| <= k
  {
    if k == 0 then []
    else if Due(es[k - 1], world[k - 1].checkedAt)
    then
      assert !Aborts(es[k - 1], world[k - 1]);
      DueAttempts(s, es, world, k - 1) + [AttemptFor(s, es[k - 1], world[k - 1])]
    else DueAttempts(s, es, world, k - 1)
  }

  /** The loop of `execute`, entry by entry, equals the reference: entries
      before the first raising one are settled, that one and all later ones
      are untouched, the log holds exactly the due entries before it, and the
      pass raised exactly when such an entry was reached. */
  lemma {:induction false} PassIsReference(s: Settings, es: seq<Entry>, world: seq<Readings>, k: nat)
    requires |world| == |es| && k <= |es|
    ensures var p := Pass(s, es, world, k);
            var stop := FirstAbort(es, world, 0);
            && (p.aborted <==> stop < k)
            && (forall j :: 0 <= j < |es| ==>
                  p.entries[j] == if j < k && j < stop then Settled(s, es[j], world[j]) else es[j])
            && p.attempts == DueAttempts(s, es, world, if k < stop then k else stop)
  {
    var stop := FirstAbort(es, world, 0);
    if k > 0 {
      PassIsReference(s, es, world, k - 1);
      var p := Pass(s, es, world, k - 1);
      var e, r := es[k - 1], world[k - 1];
      if !p.aborted && Due(e, r.checkedAt) && e.kind in UserType {
        assert stop != k - 1;
        var q := Pass(s, es, world, k);
        forall j | 0 <= j < |es|
          ensures q.entries[j] == if j < k && j < stop then Settled(s, es[j], world[j]) else es[j]
        {
        }
      }
    }
  }

  /** Once a pass has raised, later entries change nothing. */
  lemma {:induction false} AbortIsFinal(s: Settings, es: seq<Entry>, world: seq<Readings>, k: nat, n: nat)
    requires |world| == |es| && k <= n <= |es|
    requires Pass(s, es, world, k).aborted
    ensures Pass(s, es, world, n) == Pass(s, es, world, k)
    decreases n - k
  {
    if n > k {
      AbortIsFinal(s, es, world, k, n - 1);
    }
  }

  /** The list as the init step of `_auto_trigger_task` leaves it. */
  function Stamped(schedule: seq<Entry>, initTime: int): (es: seq<Entry>)
    ensures |es| == |schedule|
    ensures forall i :: 0 <= i < |es| ==> es[i] == schedule[i].(lastActivity := initTime)
  {
    seq(|schedule|, i requires 0 <= i < |schedule| => schedule[i].(lastActivity := initTime))
  }

  /** Right after init an entry becomes due exactly when more than its
      interval has passed since the start instant; all entries share it. */
  lemma FreshEntryDue(schedule: seq<Entry>, initTime: int, i: nat, now: int)
    requires i < |schedule|
    ensures Due(Stamped(schedule, initTime)[i], now) <==>
      now - initTime > schedule[i].intervalSec * MicrosPerSecond
  {
  }

  /** An entry that is not due at its check is left exactly as it was. */
  lemma {:induction false} NotDueUntouched(s: Settings, es: seq<Entry>, world: seq<Readings>, j: nat)
    requires |world| == |es| && j < |es|
    requires !Due(es[j], world[j].checkedAt)
    ensures Pass(s, es, world, |es|).entries[j] == es[j]
  {
    PassIsReference(s, es, world, |es|);
  }

  /** A reached, due entry whose send returned normally carries the post-send
      clock; one whose send raised is unchanged, and the pass goes on. */
  lemma {:induction false} SendOutcomeDecidesStamp(s: Settings, es: seq<Entry>, world: seq<Readings>, j: nat)
    requires |world| == |es| && j < |es|
    requires forall i :: 0 <= i < j ==> !Aborts(es[i], world[i])
    requires Due(es[j], world[j].checkedAt) && es[j].kind in UserType
    ensures var p := Pass(s, es, world, |es|);
            && (Succeeded(AttemptFor(s, es[j], world[j]).result) ==>
                  p.entries[j].lastActivity == world[j].sentAt)
            && (!Succeeded(AttemptFor(s, es[j], world[j]).result) ==> p.entries[j] == es[j])
            && (p.aborted <==> exists i :: j < i < |es| && Aborts(es[i], world[i]))
  {
    PassIsReference(s, es, world, |es|);
    var stop := FirstAbort(es, world, 0);
    assert stop > j;
  }

  /** An entry of unknown type that is reached and due ends the pass: it and
      every later entry are untouched and no later entry is attempted. */
  lemma {:induction false} UnknownTypeAborts(s: Settings, es: seq<Entry>, world: seq<Readings>, j: nat)
    requires |world| == |es| && j < |es|
    requires forall i :: 0 <= i < j ==> !Aborts(es[i], world[i])
    requires Aborts(es[j], world[j])
    ensures var p := Pass(s, es, world, |es|);
            && p.aborted
            && (forall i :: j <= i < |es| ==> p.entries[i] == es[i])
            && p.attempts == DueAttempts(s, es, world, j)
  {
    PassIsReference(s, es, world, |es|);
    var stop := FirstAbort(es, world, 0);
    assert stop == j;
  }

  /** A pass changes nothing but `last_activity` stamps, and each stamp it
      changes is that entry's post-send clock reading. */
  lemma {:induction false} OnlyStampsChange(s: Settings, es: seq<Entry>, world: seq<Readings>, j: nat)
    requires |world| == |es| && j < |es|
    ensures var e' := Pass(s, es, world, |es|).entries[j];
            e' == es[j].(lastActivity := e'.lastActivity)
            && (e'.lastActivity == es[j].lastActivity || e'.lastActivity == world[j].sentAt)
  {
    PassIsReference(s, es, world, |es|);
  }

  /** An entry that was just restamped at `t` is not due again until more
      than its interval has passed since `t`. */
  lemma {:induction false} RestampedWaitsInterval(s: Settings, es: seq<Entry>, world: seq<Readings>, j: nat, now: int)
    requires |world| == |es| && j < |es|
    requires Pass(s, es, world, |es|).entries[j] != es[j]
    ensures Due(Pass(s, es, world, |es|).entries[j], now) <==>
      now - world[j].sentAt > es[j].intervalSec * MicrosPerSecond
  {
    OnlyStampsChange(s, es, world, j);
  }

  /** The in-memory schedule list that the background task owns. */
  class AutoTrigger {
    const settings: Settings
    const entries: array<Entry>

    /** Load the schedule and stamp every entry with the one instant
        `initTime` at which the task started. */
    constructor (settings: Settings, schedule: seq<Entry>, initTime: int)
      ensures this.settings == settings
      ensures fresh(entries)
      ensures entries[..] == Stamped(schedule, initTime)
      ensures forall i :: 0 <= i < entries.Length ==> entries[i].lastActivity == initTime
    {
      this.settings := settings;
      var list := new Entry[|schedule|](i requires 0 <= i < |schedule| => schedule[i]);
      entries := list;
      new;
      var i := 0;
      while i < list.Length
        invariant 0 <= i <= list.Length
        invariant forall j :: 0 <= j < i ==> list[j] == schedule[j].(lastActivity := initTime)
        invariant forall j :: i <= j < list.Length ==> list[j] == schedule[j]
      {
        list[i] := list[i].(lastActivity := initTime);
        i := i + 1;
      }
    }

    /** `execute`: walk the list in order, sending to every due entry and
        restamping it when the send returned normally, until an unknown type
        raises. */
    method Execute(world: seq<Readings>) returns (attempts: seq<Attempt>, aborted: bool)
      requires |world| == entries.Length
      modifies entries
      ensures var p := Pass(settings, old(entries[..]), world, entries.Length);
              entries[..] == p.entries && attempts == p.attempts && aborted == p.aborted
    {
      ghost var es := entries[..];
      var i := 0;
      attempts, aborted := [], false;
      while i < entries.Length && !aborted
        invariant 0 <= i <= entries.Length
        invariant Pass(settings, es, world, i) == PassResult(entries[..], attempts, aborted)
      {
        var e, r := entries[i], world[i];
        assert e == es[i];
        if r.checkedAt - e.lastActivity > e.intervalSec * MicrosPerSecond {
          var address := Address(e.kind, e.id);
          if address.None? {
            aborted := true;
          } else {
            var forward := e.sendForward.GetOr(false);
            var result := SendImg(settings.imageSize, settings.botQQ, address.value, forward,
                                  r.response, r.delivery);
            attempts := attempts + [Attempt(address.value, BuildRequest(settings.imageSize, e.r18.GetOr(0)),
                                            forward, result)];
            if Succeeded(result) {
              entries[i] := e.(lastActivity := r.sentAt);
            }
          }
        }
        i := i + 1;
      }
      if i < entries.Length {
        AbortIsFinal(settings, es, world, i, entries.Length);
      }
    }

    /** One poll of `_auto_trigger_task`: inside the exclusion window nothing
        happens; otherwise one pass runs, and an unknown type that raised out
        of it is caught and reported. */
    method Tick(nowOfDay: TimeOfDay, world: seq<Readings>) returns (outcome: TickOutcome)
      requires |world| == entries.Length
      modifies entries
      ensures IsTimeBetween(settings.excludeStart, settings.excludeEnd, nowOfDay) ==>
                outcome == Excluded && entries[..] == old(entries[..])
      ensures !IsTimeBetween(settings.excludeStart, settings.excludeEnd, nowOfDay) ==>
                var p := Pass(settings, old(entries[..]), world, entries.Length);
                outcome == Ran(p.attempts, p.aborted) && entries[..] == p.entries
    {
      if IsTimeBetween(settings.excludeStart, settings.excludeEnd, nowOfDay) {
        outcome := Excluded;
      } else {
        var attempts, aborted := Execute(world);
        outcome := Ran(attempts, aborted);
      }
    }
  }
}
