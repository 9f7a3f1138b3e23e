/** Delayed callbacks: the timer map of the event loop and the timers in it. */
module Timers {

  /** One scheduled entry (an inner timer); entries are numbered as they are created. */
  datatype Entry = Entry(owner: nat, fireTime: int, active: bool)

  datatype Bucket = Bucket(time: int, ids: seq<nat>)

  datatype Fired = Fired(id: nat, at: int)

  /** `wheel` is the map from fire times to lists, in the order of its keys; `callbacks`
      are the entries a tick has taken out and not looked at yet; `latest` is the entry
      of each timer's last `delay`; `now` is the time of the last tick. */
  datatype State = State(
    entries: seq<Entry>,
    latest: map<nat, nat>,
    wheel: seq<Bucket>,
    callbacks: seq<nat>,
    now: int,
    enabled: bool,
    log: seq<Fired>)

  const INITIAL: State := State([], map[], [], [], 0, true, [])

  /** Steps of all threads: other threads, and callbacks, may delay and cancel timers
      at any point, also while the callbacks of a tick are being executed. */
  datatype Event =
    | Delay(timer: nat, fireTime: int)
    | Cancel(timer: nat)
    | Take(time: int)
    | RunNext
    | Disable

  // ---------------------------------------------------------------------
  // The steps
  // ---------------------------------------------------------------------

  /** `scheduleTimer` on the map of lists. */
  function Insert(wheel: seq<Bucket>, time: int, id: nat): seq<Bucket> {
    if wheel == [] || time < wheel[0].time then [Bucket(time, [id])] + wheel
    else if time == wheel[0].time then [Bucket(time, wheel[0].ids + [id])] + wheel[1..]
    else [wheel[0]] + Insert(wheel[1..], time, id)
  }

  /** The number of buckets up to `upper_bound(now)`. */
  function Due(wheel: seq<Bucket>, now: int): (n: nat)
    ensures n <= |wheel| && (forall i :: 0 <= i < n ==> wheel[i].time <= now) && (n < |wheel| ==> now < wheel[n].time)
  {
    if wheel == [] || now < wheel[0].time then 0 else 1 + Due(wheel[1..], now)
  }

  function Flat(wheel: seq<Bucket>): seq<nat> {
    if wheel == [] then [] else wheel[0].ids + Flat(wheel[1..])
  }

  predicate Enabled(s: State, e: Event) {
    match e
    case Take(_) => s.callbacks == []
    case RunNext => s.callbacks != [] && s.callbacks[0] < |s.entries|
    case Cancel(timer) => timer in s.latest ==> s.latest[timer] < |s.entries|
    case _ => true
  }

  function Deactivate(entries: seq<Entry>, id: nat): seq<Entry>
    requires id < |entries|
  {
    entries[id := entries[id].(active := false)]
  }

  function Step(s: State, e: Event): State
    requires Enabled(s, e)
  {
    match e
    case Delay(timer, fireTime) =>
      var id := |s.entries|;
      s.(entries := s.entries + [Entry(timer, fireTime, true)], latest := s.latest[timer := id],
         wheel := Insert(s.wheel, fireTime, id))
    case Cancel(timer) => if timer in s.latest then s.(entries := Deactivate(s.entries, s.latest[timer])) else s
    case Take(time) =>
      if !s.enabled then s
      else
        var n := Due(s.wheel, time);
        s.(callbacks := Flat(s.wheel[..n]), wheel := s.wheel[n..], now := time)
    case RunNext =>
      var id, rest := s.callbacks[0], s.callbacks[1..];
      if s.entries[id].active then
        s.(entries := Deactivate(s.entries, id), callbacks := rest, log := s.log + [Fired(id, s.now)])
      else s.(callbacks := rest)
    case Disable => s.(enabled := false)
  }

  /** A run: every event happens in a state in which it can. */
  ghost predicate Allowed(s: State, es: seq<Event>)
    decreases es
  {
    es == [] || (Enabled(s, es[0]) && Allowed(Step(s, es[0]), es[1..]))
  }

  function Run(s: State, es: seq<Event>): State
    requires Allowed(s, es)
    decreases es
  {
    if es == [] then s else Run(Step(s, es[0]), es[1..])
  }

  // ---------------------------------------------------------------------
  // The invariant
  // ---------------------------------------------------------------------

  /** Before in fire time, or in insertion at the same fire time. */
  predicate Earlier(entries: seq<Entry>, a: nat, b: nat) {
    a < |entries| && b < |entries|
    && (entries[a].fireTime < entries[b].fireTime || (entries[a].fireTime == entries[b].fireTime && a < b))
  }

  ghost predicate Ordered(entries: seq<Entry>, ids: seq<nat>) {
    && (forall i :: 0 <= i < |ids| ==> ids[i] < |entries|)
    && forall i, j :: 0 <= i < j < |ids| ==> Earlier(entries, ids[i], ids[j])
  }

  /** Buckets in the order of their times, each with the entries that fire then. */
  ghost predicate Filed(entries: seq<Entry>, wheel: seq<Bucket>) {
    && (forall i, j :: 0 <= i < j < |wheel| ==> wheel[i].time < wheel[j].time)
    && forall i :: 0 <= i < |wheel| ==> FiledBucket(entries, wheel[i])
  }

  ghost predicate FiledBucket(entries: seq<Entry>, b: Bucket) {
    b.ids != [] && Ordered(entries, b.ids)
    && forall k :: 0 <= k < |b.ids| ==> b.ids[k] < |entries| && entries[b.ids[k]].fireTime == b.time
  }

  ghost predicate LogIsRight(s: State) {
    && (forall i, j :: 0 <= i < j < |s.log| ==> s.log[i].id != s.log[j].id)
    && forall i :: 0 <= i < |s.log| ==>
         var f := s.log[i];
         f.id < |s.entries| && !s.entries[f.id].active && s.entries[f.id].fireTime <= f.at
  }

  ghost predicate Valid(s: State) {
    && Filed(s.entries, s.wheel)
    && Ordered(s.entries, s.callbacks)
    && (forall id :: id in s.callbacks ==> s.entries[id].fireTime <= s.now && id !in Flat(s.wheel))
    && (forall id :: 0 <= id < |s.entries| && s.entries[id].active ==> id in s.callbacks || id in Flat(s.wheel))
    && (forall timer :: timer in s.latest ==> s.latest[timer] < |s.entries|)
    && LogIsRight(s)
  }

  // ---------------------------------------------------------------------
  // Buckets
  // ---------------------------------------------------------------------

  lemma {:induction false} FlatSplits(a: seq<Bucket>, b: seq<Bucket>)
    ensures Flat(a + b) == Flat(a) + Flat(b)
  {
    if a == [] {
      assert a + b == b;
    } else {
      assert (a + b)[0] == a[0] && (a + b)[1..] == a[1..] + b;
      FlatSplits(a[1..], b);
    }
  }

  /** The entries of a bucket list, bucket by bucket. */
  lemma {:induction false} FlatBounds(entries: seq<Entry>, wheel: seq<Bucket>, lo: int)
    requires Filed(entries, wheel) && forall i :: 0 <= i < |wheel| ==> lo <= wheel[i].time
    ensures Ordered(entries, Flat(wheel))
    ensures forall k :: 0 <= k < |Flat(wheel)| ==> lo <= entries[Flat(wheel)[k]].fireTime
  {
    if wheel != [] {
      var head, rest := wheel[0], wheel[1..];
      assert FiledBucket(entries, head);
      assert Filed(entries, rest) by {
        assert forall i :: 0 <= i < |rest| ==> rest[i] == wheel[i + 1];
      }
      FlatBounds(entries, rest, head.time + 1);
      OrderedJoin(entries, head.ids, Flat(rest), head.time);
    }
  }

  lemma OrderedJoin(entries: seq<Entry>, a: seq<nat>, b: seq<nat>, time: int)
    requires Ordered(entries, a) && Ordered(entries, b)
    requires forall i :: 0 <= i < |a| ==> entries[a[i]].fireTime <= time
    requires forall i :: 0 <= i < |b| ==> time < entries[b[i]].fireTime
    ensures Ordered(entries, a + b)
  {
  }

  lemma {:induction false} FlatAtMost(entries: seq<Entry>, wheel: seq<Bucket>, hi: int)
    requires Filed(entries, wheel) && forall i :: 0 <= i < |wheel| ==> wheel[i].time <= hi
    ensures forall id :: id in Flat(wheel) ==> id < |entries| && entries[id].fireTime <= hi
  {
    if wheel != [] {
      assert FiledBucket(entries, wheel[0]);
      assert Filed(entries, wheel[1..]);
      FlatAtMost(entries, wheel[1..], hi);
    }
  }

  /** Later entries, and changes of the active flag, do not disturb the order. */
  ghost predicate SameTimes(before: seq<Entry>, after: seq<Entry>) {
    |before| <= |after| && forall i :: 0 <= i < |before| ==> before[i].fireTime == after[i].fireTime
  }

  lemma FiledStays(before: seq<Entry>, after: seq<Entry>, wheel: seq<Bucket>)
    requires Filed(before, wheel) && SameTimes(before, after)
    ensures Filed(after, wheel)
  {
    forall i | 0 <= i < |wheel| ensures FiledBucket(after, wheel[i]) {
      assert FiledBucket(before, wheel[i]);
    }
  }

  lemma OrderedStays(before: seq<Entry>, after: seq<Entry>, ids: seq<nat>)
    requires Ordered(before, ids) && SameTimes(before, after)
    ensures Ordered(after, ids)
  {
  }

  lemma {:induction false} InsertIsMember(wheel: seq<Bucket>, time: int, id: nat, x: nat)
    ensures x in Flat(Insert(wheel, time, id)) <==> x in Flat(wheel) || x == id
  {
    if wheel == [] || time < wheel[0].time {
      assert Insert(wheel, time, id)[1..] == wheel;
    } else if time == wheel[0].time {
      assert Insert(wheel, time, id)[1..] == wheel[1..];
    } else {
      assert Insert(wheel, time, id)[1..] == Insert(wheel[1..], time, id);
      InsertIsMember(wheel[1..], time, id, x);
    }
  }

  /** The buckets stay in order, and all but the one of `time` stay as they are. */
  lemma {:induction false} InsertIsFiled(entries: seq<Entry>, wheel: seq<Bucket>, id: nat, lo: int)
    requires Filed(entries, wheel) && id + 1 == |entries|
    requires forall k :: k in Flat(wheel) ==> k < id
    requires lo <= entries[id].fireTime && forall i :: 0 <= i < |wheel| ==> lo <= wheel[i].time
    ensures var w := Insert(wheel, entries[id].fireTime, id);
            Filed(entries, w) && forall i :: 0 <= i < |w| ==> lo <= w[i].time
  {
    var time := entries[id].fireTime;
    var w := Insert(wheel, time, id);
    if wheel == [] || time < wheel[0].time {
      assert FiledBucket(entries, Bucket(time, [id]));
      FiledCons(entries, Bucket(time, [id]), wheel);
    } else {
      var head, rest := wheel[0], wheel[1..];
      assert FiledBucket(entries, head);
      assert Filed(entries, rest);
      assert forall k :: k in Flat(rest) || k in head.ids ==> k in Flat(wheel);
      if time == head.time {
        AppendToBucket(entries, head, id);
        FiledCons(entries, Bucket(time, head.ids + [id]), rest);
      } else {
        assert forall i :: 0 <= i < |rest| ==> rest[i] == wheel[i + 1] && head.time + 1 <= rest[i].time;
        InsertIsFiled(entries, rest, id, head.time + 1);
        FiledCons(entries, head, Insert(rest, time, id));
      }
    }
  }

  /** Insertion at the first bucket that is not earlier. */
  lemma {:induction false} InsertAt(wheel: seq<Bucket>, time: int, id: nat, i: nat)
    requires i <= |wheel| && (forall j :: 0 <= j < i ==> wheel[j].time < time) && (i < |wheel| ==> time <= wheel[i].time)
    ensures Insert(wheel, time, id) ==
            if i == |wheel| || wheel[i].time != time then wheel[..i] + [Bucket(time, [id])] + wheel[i..]
            else wheel[i := Bucket(time, wheel[i].ids + [id])]
  {
    if i > 0 {
      var rest := wheel[1..];
      InsertAt(rest, time, id, i - 1);
      assert Insert(wheel, time, id) == [wheel[0]] + Insert(rest, time, id);
      if i == |wheel| || wheel[i].time != time {
        var made := [Bucket(time, [id])];
        assert wheel[..i] == [wheel[0]] + rest[..i - 1] && wheel[i..] == rest[i - 1..];
        assert [wheel[0]] + (rest[..i - 1] + made + rest[i - 1..]) == wheel[..i] + made + wheel[i..];
      } else {
        var grown := Bucket(time, wheel[i].ids + [id]);
        assert [wheel[0]] + rest[i - 1 := grown] == wheel[i := grown];
      }
    } else if wheel != [] && wheel[0].time == time {
      assert wheel[0 := Bucket(time, wheel[0].ids + [id])] == [Bucket(time, wheel[0].ids + [id])] + wheel[1..];
    }
  }

  lemma AppendToBucket(entries: seq<Entry>, b: Bucket, id: nat)
    requires FiledBucket(entries, b) && id < |entries| && entries[id].fireTime == b.time
    requires forall k :: k in b.ids ==> k < id
    ensures FiledBucket(entries, Bucket(b.time, b.ids + [id]))
  {
    forall i | 0 <= i < |b.ids| ensures b.ids[i] < id {
      assert b.ids[i] in b.ids;
    }
  }

  lemma FiledCons(entries: seq<Entry>, b: Bucket, wheel: seq<Bucket>)
    requires FiledBucket(entries, b) && Filed(entries, wheel)
    requires forall i :: 0 <= i < |wheel| ==> b.time < wheel[i].time
    ensures Filed(entries, [b] + wheel)
  {
    hide FiledBucket;
  }

  // ---------------------------------------------------------------------
  // Every step keeps the invariant
  // ---------------------------------------------------------------------

  lemma DelayKeeps(s: State, timer: nat, fireTime: int)
    requires Valid(s)
    ensures Valid(Step(s, Delay(timer, fireTime)))
  {
    hide Filed, Flat, Insert;
    var id, t := |s.entries|, Step(s, Delay(timer, fireTime));
    assert SameTimes(s.entries, t.entries);
    FiledStays(s.entries, t.entries, s.wheel);
    OrderedStays(s.entries, t.entries, s.callbacks);
    FlatIsBelow(s.entries, s.wheel);
    InsertWhere(t.entries, s.wheel, id);
    forall x ensures x in Flat(t.wheel) <==> x in Flat(s.wheel) || x == id {
      InsertIsMember(s.wheel, fireTime, id, x);
    }
    forall x | 0 <= x < |t.entries| && t.entries[x].active ensures x in t.callbacks || x in Flat(t.wheel) {
      assert x < id ==> s.entries[x] == t.entries[x];
    }
    LogStays(s, t);
  }

  lemma InsertWhere(entries: seq<Entry>, wheel: seq<Bucket>, id: nat)
    requires Filed(entries, wheel) && id + 1 == |entries| && forall k :: k in Flat(wheel) ==> k < id
    ensures Filed(entries, Insert(wheel, entries[id].fireTime, id))
  {
    var time := entries[id].fireTime;
    var lo := if wheel != [] && wheel[0].time < time then wheel[0].time else time;
    InsertIsFiled(entries, wheel, id, lo);
  }

  lemma FlatIsBelow(entries: seq<Entry>, wheel: seq<Bucket>)
    requires Filed(entries, wheel)
    ensures forall id :: id in Flat(wheel) ==> id < |entries|
  {
    var hi := if wheel == [] then 0 else wheel[|wheel| - 1].time;
    FlatAtMost(entries, wheel, hi);
  }

  lemma LogStays(s: State, t: State)
    requires LogIsRight(s) && t.log == s.log && SameTimes(s.entries, t.entries)
    requires forall id :: 0 <= id < |s.entries| && t.entries[id].active ==> s.entries[id].active
    ensures LogIsRight(t)
  {
  }

  lemma CancelKeeps(s: State, timer: nat)
    requires Valid(s)
    ensures Enabled(s, Cancel(timer)) && Valid(Step(s, Cancel(timer)))
  {
    hide Filed, Ordered, Flat;
    var t := Step(s, Cancel(timer));
    assert SameTimes(s.entries, t.entries);
    FiledStays(s.entries, t.entries, s.wheel);
    OrderedStays(s.entries, t.entries, s.callbacks);
    OrderedIsBelow(s.entries, s.callbacks);
    LogStays(s, t);
  }

  lemma OrderedIsBelow(entries: seq<Entry>, ids: seq<nat>)
    requires Ordered(entries, ids)
    ensures forall id :: id in ids ==> id < |entries|
  {
  }

  /** A tick takes out exactly the entries that are due, in the order of their fire
      times and then of insertion, and leaves exactly the later ones. */
  lemma TakeMeans(s: State, time: int)
    requires Valid(s) && s.callbacks == [] && s.enabled
    ensures var t := Step(s, Take(time));
            && Flat(s.wheel) == t.callbacks + Flat(t.wheel)
            && Ordered(s.entries, t.callbacks) && Filed(s.entries, t.wheel)
            && (forall id :: id in t.callbacks ==> id < |s.entries| && s.entries[id].fireTime <= time)
            && (forall id :: id in Flat(t.wheel) ==> id < |s.entries| && time < s.entries[id].fireTime)
  {
    hide Filed, Ordered, Flat;
    var n := Due(s.wheel, time);
    var a, b := s.wheel[..n], s.wheel[n..];
    assert s.wheel == a + b;
    FlatSplits(a, b);
    FiledSplits(s.entries, s.wheel, n);
    FlatAtMost(s.entries, a, time);
    FlatBounds(s.entries, a, if a == [] then 0 else a[0].time);
    FlatAtLeast(s.entries, b, time + 1);
  }

  lemma FiledSplits(entries: seq<Entry>, wheel: seq<Bucket>, n: nat)
    requires Filed(entries, wheel) && n <= |wheel|
    ensures Filed(entries, wheel[..n]) && Filed(entries, wheel[n..])
    ensures forall i :: 0 <= i < n ==> wheel[..n][0].time <= wheel[..n][i].time
    ensures forall i :: n <= i < |wheel| ==> wheel[n].time <= wheel[i].time
  {
    hide FiledBucket;
    assert forall i :: 0 <= i < |wheel[n..]| ==> wheel[n..][i] == wheel[n + i];
  }

  lemma FlatAtLeast(entries: seq<Entry>, wheel: seq<Bucket>, lo: int)
    requires Filed(entries, wheel) && forall i :: 0 <= i < |wheel| ==> lo <= wheel[i].time
    ensures forall id :: id in Flat(wheel) ==> id < |entries| && lo <= entries[id].fireTime
  {
    hide Filed, Flat;
    FlatBounds(entries, wheel, lo);
    FlatIsBelow(entries, wheel);
    forall id | id in Flat(wheel) ensures lo <= entries[id].fireTime {
      var k :| 0 <= k < |Flat(wheel)| && Flat(wheel)[k] == id;
    }
  }

  lemma TakeKeeps(s: State, time: int)
    requires Valid(s) && s.callbacks == []
    ensures Valid(Step(s, Take(time)))
  {
    hide Filed, Ordered, Flat;
    if s.enabled {
      TakeMeans(s, time);
    }
  }

  lemma RunNextKeeps(s: State)
    requires Valid(s) && s.callbacks != []
    ensures Enabled(s, RunNext) && Valid(Step(s, RunNext))
  {
    hide Filed, Flat;
    var id, rest := s.callbacks[0], s.callbacks[1..];
    OrderedIsBelow(s.entries, s.callbacks);
    var t := Step(s, RunNext);
    assert SameTimes(s.entries, t.entries);
    FiledStays(s.entries, t.entries, s.wheel);
    OrderedStays(s.entries, t.entries, s.callbacks);
    assert Ordered(t.entries, rest);
    assert forall x :: x in rest ==> x in s.callbacks;
    forall x | 0 <= x < |t.entries| && t.entries[x].active ensures x in rest || x in Flat(t.wheel) {
      assert s.entries[x].active;
      assert x in s.callbacks ==> x == id || x in rest;
    }
    if s.entries[id].active {
      LogGrows(s, t);
    } else {
      LogStays(s, t);
    }
  }

  lemma LogGrows(s: State, t: State)
    requires LogIsRight(s) && s.callbacks != [] && s.callbacks[0] < |s.entries| && s.entries[s.callbacks[0]].active
    requires s.entries[s.callbacks[0]].fireTime <= s.now
    requires t.entries == Deactivate(s.entries, s.callbacks[0]) && t.log == s.log + [Fired(s.callbacks[0], s.now)]
    ensures LogIsRight(t)
  {
  }

  lemma StepKeeps(s: State, e: Event)
    requires Valid(s) && Enabled(s, e)
    ensures Valid(Step(s, e))
  {
    hide Filed, Ordered, Flat, LogIsRight, Insert;
    match e
    case Delay(timer, fireTime) => DelayKeeps(s, timer, fireTime);
    case Cancel(timer) => CancelKeeps(s, timer);
    case Take(time) => TakeKeeps(s, time);
    case RunNext => RunNextKeeps(s);
    case Disable => LogStays(s, Step(s, e));
  }

  // ---------------------------------------------------------------------
  // Every run
  // ---------------------------------------------------------------------

  lemma {:induction false} RunKeeps(s: State, es: seq<Event>)
    requires Valid(s) && Allowed(s, es)
    ensures Valid(Run(s, es))
    decreases es
  {
    hide Valid, Step, Enabled;
    if es != [] {
      StepKeeps(s, es[0]);
      RunKeeps(Step(s, es[0]), es[1..]);
    }
  }

  /** Over every run an entry is executed at most once and never before its fire
      time, and every entry that is still active is still waiting. */
  lemma EveryRun(es: seq<Event>)
    requires Allowed(INITIAL, es)
    ensures var s := Run(INITIAL, es);
            && (forall i, j :: 0 <= i < j < |s.log| ==> s.log[i].id != s.log[j].id)
            && (forall i :: 0 <= i < |s.log| ==>
                  s.log[i].id < |s.entries| && s.entries[s.log[i].id].fireTime <= s.log[i].at)
            && (forall id :: 0 <= id < |s.entries| && s.entries[id].active ==> id in s.callbacks || id in Flat(s.wheel))
  {
    hide Step, Enabled, Run, Filed, Ordered, Flat;
    InitialIsValid();
    RunKeeps(INITIAL, es);
  }

  lemma InitialIsValid()
    ensures Valid(INITIAL)
  {
  }

  /** The log only grows, and an entry that is not active any more is never executed again. */
  lemma {:induction false} InactiveNeverRuns(s: State, es: seq<Event>, id: nat)
    requires Allowed(s, es) && id < |s.entries| && !s.entries[id].active
    ensures var t := Run(s, es);
            && |s.log| <= |t.log| && t.log[..|s.log|] == s.log
            && forall i :: |s.log| <= i < |t.log| ==> t.log[i].id != id
    decreases es
  {
    hide Insert, Flat, Due;
    if es != [] {
      var next := Step(s, es[0]);
      InactiveNeverRuns(next, es[1..], id);
      var t := Run(s, es);
      assert t.log[..|s.log|] == t.log[..|next.log|][..|s.log|] == next.log[..|s.log|] == s.log;
    }
  }

  /** What executes of a list of entries when nothing interferes. */
  function Executed(entries: seq<Entry>, ids: seq<nat>, now: int): seq<Fired>
    requires forall i :: 0 <= i < |ids| ==> ids[i] < |entries|
  {
    if ids == [] then []
    else (if entries[ids[0]].active then [Fired(ids[0], now)] else []) + Executed(entries, ids[1..], now)
  }

  lemma {:induction false} ExecutedApart(before: seq<Entry>, after: seq<Entry>, ids: seq<nat>, now: int)
    requires |before| == |after| && forall i :: 0 <= i < |ids| ==> ids[i] < |before| && before[ids[i]] == after[ids[i]]
    ensures Executed(before, ids, now) == Executed(after, ids, now)
  {
    if ids != [] {
      ExecutedApart(before, after, ids[1..], now);
    }
  }

  function Repeat(n: nat): seq<Event> {
    if n == 0 then [] else [RunNext] + Repeat(n - 1)
  }

  /** One turn of the callback loop, seen from outside. */
  lemma RunNextMeans(s: State)
    requires Valid(s) && s.callbacks != []
    ensures forall i :: 0 <= i < |s.callbacks| ==> s.callbacks[i] < |s.entries|
    ensures Enabled(s, RunNext)
    ensures var t, rest := Step(s, RunNext), s.callbacks[1..];
            && Valid(t) && t.callbacks == rest && t.wheel == s.wheel && t.now == s.now && t.enabled == s.enabled
            && (forall id :: 0 <= id < |s.entries| && id < |t.entries| && id != s.callbacks[0] ==>
                  t.entries[id] == s.entries[id])
            && |t.entries| == |s.entries| && (forall i :: 0 <= i < |rest| ==> t.entries[rest[i]] == s.entries[rest[i]])
            && t.log == s.log + if s.entries[s.callbacks[0]].active then [Fired(s.callbacks[0], s.now)] else []
  {
    hide Filed, Flat, LogIsRight;
    RunNextKeeps(s);
    forall i | 1 <= i < |s.callbacks| ensures s.callbacks[i] != s.callbacks[0] {
      assert Earlier(s.entries, s.callbacks[0], s.callbacks[i]);
    }
  }

  lemma RepeatUnfolds(s: State, n: nat)
    requires Enabled(s, RunNext) && n > 0
    ensures Allowed(s, Repeat(n)) <==> Allowed(Step(s, RunNext), Repeat(n - 1))
    ensures Allowed(s, Repeat(n)) ==> Run(s, Repeat(n)) == Run(Step(s, RunNext), Repeat(n - 1))
  {
    hide Step, Enabled;
    assert Repeat(n)[0] == RunNext && Repeat(n)[1..] == Repeat(n - 1);
  }

  lemma CallbacksAreEntries(s: State)
    requires Valid(s)
    ensures forall i :: 0 <= i < |s.callbacks| ==> s.callbacks[i] < |s.entries|
  {
  }

  /** The callback loop of a tick executes the active ones of its entries, in order. */
  lemma {:induction false} DrainMeans(s: State)
    requires Valid(s)
    ensures forall i :: 0 <= i < |s.callbacks| ==> s.callbacks[i] < |s.entries|
    ensures Allowed(s, Repeat(|s.callbacks|))
    ensures var t := Run(s, Repeat(|s.callbacks|));
            && t.callbacks == [] && t.wheel == s.wheel && t.log == s.log + Executed(s.entries, s.callbacks, s.now)
            && Valid(t) && t.enabled == s.enabled && |t.entries| == |s.entries|
            && forall id :: 0 <= id < |s.entries| && id !in s.callbacks ==> t.entries[id] == s.entries[id]
    decreases |s.callbacks|
  {
    hide Valid, Step, Enabled;
    CallbacksAreEntries(s);
    if s.callbacks != [] {
      RunNextMeans(s);
      var next, rest := Step(s, RunNext), s.callbacks[1..];
      DrainMeans(next);
      ExecutedApart(s.entries, next.entries, rest, s.now);
      RepeatUnfolds(s, |s.callbacks|);
    }
  }

  /** A timer delayed twice and then cancelled still runs once. */
  lemma DelayedTwiceStillRuns(timer: nat, first: int, second: int)
    requires first < second
    ensures var es := [Delay(timer, first), Delay(timer, second), Cancel(timer), Take(first), RunNext];
            Allowed(INITIAL, es) && Run(INITIAL, es).log == [Fired(0, first)]
  {
    var a := Step(INITIAL, Delay(timer, first));
    assert a.wheel == [Bucket(first, [0])];
    var b := Step(a, Delay(timer, second));
    assert b.wheel == [Bucket(first, [0]), Bucket(second, [1])] by {
      assert a.wheel[1..] == [];
      assert Insert([], second, 1) == [Bucket(second, [1])];
    }
    var c := Step(b, Cancel(timer));
    assert c.entries == [Entry(timer, first, true), Entry(timer, second, false)];
    assert Due(c.wheel, first) == 1;
    var d := Step(c, Take(first));
    assert c.wheel[..1] == [Bucket(first, [0])];
    assert [Bucket(first, [0])][1..] == [] && Flat([]) == [];
    assert d.callbacks == [0];
    var e := Step(d, RunNext);
    assert e.log == [Fired(0, first)];
    RunFive(INITIAL, Delay(timer, first), Delay(timer, second), Cancel(timer), Take(first), RunNext);
  }

  lemma RunFive(s: State, v: Event, w: Event, x: Event, y: Event, z: Event)
    requires Enabled(s, v) && Enabled(Step(s, v), w) && Enabled(Step(Step(s, v), w), x)
    requires Enabled(Step(Step(Step(s, v), w), x), y) && Enabled(Step(Step(Step(Step(s, v), w), x), y), z)
    ensures Allowed(s, [v, w, x, y, z])
    ensures Run(s, [v, w, x, y, z]) == Step(Step(Step(Step(Step(s, v), w), x), y), z)
  {
    hide Step, Enabled;
    var s4 := Step(Step(Step(Step(s, v), w), x), y);
    RunOne(s4, z, []);
    RunOne(Step(Step(Step(s, v), w), x), y, [z]);
    RunOne(Step(Step(s, v), w), x, [y, z]);
    RunOne(Step(s, v), w, [x, y, z]);
    RunOne(s, v, [w, x, y, z]);
  }

  lemma RunOne(s: State, e: Event, es: seq<Event>)
    requires Enabled(s, e) && Allowed(Step(s, e), es)
    ensures Allowed(s, [e] + es) && Run(s, [e] + es) == Run(Step(s, e), es)
  {
    assert ([e] + es)[1..] == es;
  }
}

/** The event loop's timer handling on its mutable state. */
module EventLoop {
  import opened Timers

  /** Sixty seconds in tenths of a second, the unit of fire times. */
  const IDLE: int := 600

  class EvHelper {
    var entries: seq<Entry>
    var latest: map<nat, nat>
    var wheel: seq<Bucket>
    var callbacks: seq<nat>
    var now: int
    var enabled: bool
    var log: seq<Fired>

    ghost function View(): State
      reads this
    {
      State(entries, latest, wheel, callbacks, now, enabled, log)
    }

    constructor ()
      ensures View() == INITIAL
    {
      entries, latest, wheel, callbacks, now, enabled, log := [], map[], [], [], 0, true, [];
    }

    method ScheduleTimer(id: nat)
      requires id < |entries|
      modifies `wheel
      ensures wheel == Insert(old(wheel), entries[id].fireTime, id)
    {
      var key := entries[id].fireTime;
      var i := 0;
      while i < |wheel| && wheel[i].time < key
        invariant 0 <= i <= |wheel| && forall j :: 0 <= j < i ==> wheel[j].time < key
      {
        i := i + 1;
      }
      InsertAt(wheel, key, id, i);
      if i == |wheel| || wheel[i].time != key {
        wheel := wheel[..i] + [Bucket(key, [])] + wheel[i..];
      }
      wheel := wheel[i := Bucket(key, wheel[i].ids + [id])];
      assert [] + [id] == [id];
    }

    /** A timer's own flag is never set, so every delay makes a new entry. */
    method Delay(timer: nat, fireTime: int)
      requires Valid(View())
      modifies this
      ensures View() == Step(old(View()), Event.Delay(timer, fireTime)) && Valid(View())
    {
      DelayKeeps(View(), timer, fireTime);
      var id := |entries|;
      entries := entries + [Entry(timer, fireTime, true)];
      latest := latest[timer := id];
      ScheduleTimer(id);
    }

    method Cancel(timer: nat)
      requires Valid(View())
      modifies this
      ensures Enabled(old(View()), Event.Cancel(timer))
      ensures View() == Step(old(View()), Event.Cancel(timer)) && Valid(View())
    {
      CancelKeeps(View(), timer);
      if timer in latest {
        var id := latest[timer];
        entries := entries[id := entries[id].(active := false)];
      }
    }

    /** The lists up to `upper_bound(time)`, one after the other. */
    static method CollectDue(w: seq<Bucket>, time: int) returns (taken: seq<nat>, n: nat)
      ensures n == Due(w, time) && taken == Flat(w[..n])
    {
      taken, n := [], 0;
      assert w[..0] == [] && w[0..] == w;
      while n < |w| && w[n].time <= time
        invariant 0 <= n <= |w|
        invariant taken == Flat(w[..n]) && Due(w, time) == n + Due(w[n..], time)
      {
        assert w[n..][1..] == w[n + 1..] && w[..n + 1] == w[..n] + [w[n]];
        FlatSplits(w[..n], [w[n]]);
        assert [w[n]][1..] == [];
        assert Flat([w[n]]) == w[n].ids + Flat([]);
        taken := taken + w[n].ids;
        n := n + 1;
      }
    }

    /** The locked part of `timeout_cb`: take out what is due and find the next timeout. */
    method TakeDue(time: int) returns (timeout: int)
      requires Valid(View()) && callbacks == []
      modifies this
      ensures View() == Step(old(View()), Take(time)) && Valid(View())
      ensures enabled ==> timeout == if wheel == [] then 600 else wheel[0].time - time
      ensures enabled && wheel != [] ==> timeout > 0
    {
      hide Valid, Flat;
      TakeKeeps(View(), time);
      timeout := IDLE;
      if !enabled {
        return;
      }
      var taken, n := CollectDue(wheel, time);
      callbacks := taken;
      wheel := wheel[n..];
      now := time;
      if wheel != [] {
        timeout := wheel[0].time - time;
      }
    }

    /** One turn of the callback loop. */
    method ExecuteNext()
      requires Valid(View()) && callbacks != []
      modifies this
      ensures Enabled(old(View()), RunNext)
      ensures View() == Step(old(View()), RunNext) && Valid(View())
    {
      RunNextKeeps(View());
      var id := callbacks[0];
      callbacks := callbacks[1..];
      if entries[id].active {
        entries := entries[id := entries[id].(active := false)];
        log := log + [Fired(id, now)];
      }
    }

    method Shutdown()
      requires Valid(View())
      modifies `enabled
      ensures View() == Step(old(View()), Disable) && Valid(View())
    {
      enabled := false;
    }

    /** The callback loop when no callback and no other thread touches a timer. */
    method ExecuteAll()
      requires Valid(View())
      modifies this
      ensures Allowed(old(View()), Repeat(|old(callbacks)|))
      ensures View() == Run(old(View()), Repeat(|old(callbacks)|)) && Valid(View()) && callbacks == []
    {
      hide Valid, Step, Enabled;
      ghost var s := View();
      DrainMeans(s);
      while callbacks != []
        invariant Valid(View()) && Allowed(View(), Repeat(|callbacks|))
        invariant Run(View(), Repeat(|callbacks|)) == Run(s, Repeat(|s.callbacks|))
        decreases |callbacks|
      {
        RunNextMeans(View());
        RepeatUnfolds(View(), |callbacks|);
        ExecuteNext();
      }
    }

    /** A whole tick in which nothing interferes. */
    method TimeoutCb(time: int) returns (timeout: int)
      requires Valid(View()) && callbacks == []
      modifies this
      ensures Valid(View()) && callbacks == []
      ensures var taken := Step(old(View()), Take(time));
              && (forall i :: 0 <= i < |taken.callbacks| ==> taken.callbacks[i] < |taken.entries|)
              && log == old(log) + Executed(taken.entries, taken.callbacks, taken.now)
              && wheel == taken.wheel
    {
      hide Valid, Flat, Due;
      timeout := TakeDue(time);
      DrainMeans(View());
      ExecuteAll();
    }
  }
}
