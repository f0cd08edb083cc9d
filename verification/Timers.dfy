/** Run-loop timers: the lazily rescheduled heap of include/crab/network.hxx refines
    a map from timers to deadlines. */
module TimerSpec {

  /** What a user of timers sees: the set timers with their deadlines, and the loop's clock. */
  datatype State<!K> = State(deadlines: map<K, int>, now: int)

  /** Quiet is a process_timer call that fires nothing. */
  datatype Event<K> = Once(timer: K, at: int) | Cancel(timer: K) | Clock(now: int) | Fired(timer: K) | Quiet

  ghost predicate Step<K>(s: State<K>, e: Event<K>, s': State<K>) {
    match e
    case Once(t, at) => s' == s.(deadlines := s.deadlines[t := at])
    case Cancel(t) => s' == s.(deadlines := s.deadlines - {t})
    case Clock(now) => s.now <= now && s' == s.(now := now)
    case Fired(t) => t in s.deadlines && s.deadlines[t] <= s.now && s' == s.(deadlines := s.deadlines - {t})
    case Quiet => (forall t :: t in s.deadlines ==> s.now < s.deadlines[t]) && s' == s
  }

  ghost predicate Run<K>(states: seq<State<K>>, events: seq<Event<K>>) {
    && |states| == |events| + 1
    && states[0].deadlines == map[]
    && forall i :: 0 <= i < |events| ==> Step(states[i], events[i], states[i + 1])
  }

  /** Event j armed the timer and nothing before event i changed that. */
  ghost predicate ArmedBy<K>(events: seq<Event<K>>, i: nat, t: K, j: int, at: int)
    requires i <= |events|
  {
    && 0 <= j < i
    && events[j] == Once(t, at)
    && forall k :: j < k < i ==> !Touches(events[k], t)
  }

  ghost predicate Touches<K>(e: Event<K>, t: K) {
    (e.Once? || e.Cancel? || e.Fired?) && e.timer == t
  }

  /** The last call of once_at was for `at`, and the timer was neither cancelled nor fired since. */
  ghost predicate Armed<K>(events: seq<Event<K>>, i: nat, t: K, at: int)
    requires i <= |events|
  {
    exists j :: ArmedBy(events, i, t, j, at)
  }

  /** The deadlines are a function of the history alone. */
  lemma {:induction false} HistoryGivesDeadlines<K(!new)>(states: seq<State<K>>, events: seq<Event<K>>, i: nat, t: K, at: int)
    requires Run(states, events) && i <= |events|
    ensures (t in states[i].deadlines && states[i].deadlines[t] == at) <==> Armed(events, i, t, at)
  {
    if i > 0 {
      HistoryGivesDeadlines(states, events, i - 1, t, at);
      assert Step(states[i - 1], events[i - 1], states[i]);
      if t in states[i].deadlines && states[i].deadlines[t] == at {
        if Touches(events[i - 1], t) {
          assert ArmedBy(events, i, t, i - 1, at);
        } else {
          var j :| ArmedBy(events, i - 1, t, j, at);
          assert ArmedBy(events, i, t, j, at);
        }
      }
      if Armed(events, i, t, at) {
        var j :| ArmedBy(events, i, t, j, at);
        assert j < i - 1 ==> ArmedBy(events, i - 1, t, j, at);
      }
    }
  }

  /** Safety over every run: a handler runs only for a timer that is armed and due. */
  lemma FiresOnlyWhenDue<K(!new)>(states: seq<State<K>>, events: seq<Event<K>>, i: nat)
    requires Run(states, events) && i < |events| && events[i].Fired?
    ensures exists at :: Armed(events, i, events[i].timer, at) && at <= states[i].now
  {
    var t := events[i].timer;
    assert Step(states[i], events[i], states[i + 1]);
    HistoryGivesDeadlines(states, events, i, t, states[i].deadlines[t]);
  }

  /** A timer fires at most once per arming, and never after it was cancelled: between two events
      that fire it, and between a cancellation and a firing, there is a call of once_at. */
  lemma NoFiringWithoutRearming<K(!new)>(states: seq<State<K>>, events: seq<Event<K>>, i: nat, j: nat)
    requires Run(states, events) && i < j < |events|
    requires events[i].Fired? || events[i].Cancel?
    requires events[j] == Fired(events[i].timer)
    ensures exists k, at :: i < k < j && events[k] == Once(events[i].timer, at)
  {
    FiresOnlyWhenDue(states, events, j);
    var at :| Armed(events, j, events[j].timer, at);
    var k :| ArmedBy(events, j, events[j].timer, k, at);
    assert Touches(events[i], events[i].timer);
    assert events[k] == Once(events[i].timer, at);
  }

  /** Progress: when process_timer reports nothing to do, no armed timer is due. */
  lemma QuietMeansNothingDue<K(!new)>(states: seq<State<K>>, events: seq<Event<K>>, i: nat, t: K, at: int)
    requires Run(states, events) && i < |events| && events[i] == Quiet
    requires Armed(events, i, t, at)
    ensures states[i].now < at
  {
    assert Step(states[i], events[i], states[i + 1]);
    HistoryGivesDeadlines(states, events, i, t, at);
  }

  /** The loop that calls process_timer until it is quiet ends: one firing per set timer. */
  lemma {:induction false} BurstIsBounded<K(!new)>(states: seq<State<K>>, events: seq<Event<K>>, from: nat, to: nat)
    requires Run(states, events) && from <= to <= |events|
    requires forall i :: from <= i < to ==> events[i].Fired?
    ensures to - from + |states[to].deadlines| == |states[from].deadlines|
  {
    if from < to {
      BurstIsBounded(states, events, from, to - 1);
      assert Step(states[to - 1], events[to - 1], states[to]);
      var before, t := states[to - 1].deadlines, events[to - 1].timer;
      RemoveOne(before, t);
    }
  }

  lemma PutBack<K, V>(m: map<K, V>, k: K)
    requires k in m
    ensures (m - {k})[k := m[k]] == m
  {}

  lemma KeysPut<K, V>(m: map<K, V>, k: K, v: V)
    ensures m[k := v].Keys == m.Keys + {k}
  {}

  lemma Overwrite<K, V>(m: map<K, V>, k: K, v: V)
    ensures (m - {k})[k := v] == m[k := v]
  {}

  lemma TakeAway<K>(s: set<K>, k: K)
    requires k in s
    ensures |s - {k}| < |s|
  {}

  lemma RemoveOne<K, V>(m: map<K, V>, k: K)
    requires k in m
    ensures |m - {k}| == |m| - 1
  {
    assert (m - {k}).Keys == m.Keys - {k};
  }
}

module Timers {
  import opened IntrusiveHeap
  import TimerSpec

  /** The fields of a timer the heap entry carries. fireTime is part of the heap order and must
      not change while the timer is set, movedFireTime may. */
  datatype Times = Times(fireTime: int, movedFireTime: int)

  type Timer = Node<Times>

  predicate HeapPred(a: Times, b: Times) {
    a.fireTime > b.fireTime
  }

  lemma HeapPredIsStrictWeakOrder()
    ensures StrictWeakOrder(HeapPred)
  {}

  const MAX_SLEEP_MS: int := 30 * 60 * 1000
  /** steady_clock counts nanoseconds. */
  const TICKS_PER_MS: int := 1_000_000
  /** steady_clock::time_point::max() */
  const MAX_TIME: int := 0x7FFF_FFFF_FFFF_FFFF

  /** The timers whose heap entry has come up, fired or stale. */
  ghost function Surfaced<K>(fireTimes: map<K, int>, now: int): set<K> {
    set t | t in fireTimes && fireTimes[t] <= now
  }

  lemma RescheduleShrinks<K>(fireTimes: map<K, int>, now: int, t: K, at: int)
    requires t in fireTimes && fireTimes[t] <= now < at
    ensures |Surfaced(fireTimes[t := at], now)| < |Surfaced(fireTimes, now)|
  {
    assert Surfaced(fireTimes[t := at], now) == Surfaced(fireTimes, now) - {t};
    TimerSpec.TakeAway(Surfaced(fireTimes, now), t);
  }

  class RunLoopLinks {
    const activeTimers: Heap<Times>
    var now: int
    /** The deadline of a set timer is its movedFireTime, however stale its place in the heap is. */
    ghost var deadlines: map<Timer, int>
    /** Where the heap has it. */
    ghost var fireTimes: map<Timer, int>

    ghost predicate Valid()
      reads this, activeTimers, activeTimers.elements
    {
      && activeTimers.Valid() && activeTimers.less == HeapPred
      && now <= MAX_TIME
      && deadlines.Keys == fireTimes.Keys == activeTimers.elements
      && forall t :: t in fireTimes ==> t.value == Times(fireTimes[t], deadlines[t]) && fireTimes[t] <= deadlines[t]
    }

    ghost function Abs(): TimerSpec.State<Timer>
      reads this
    {
      TimerSpec.State(deadlines, now)
    }

    /** The timer belongs to this loop: its index tells whether it is set. */
    ghost predicate Owns(timer: Timer)
      reads this, timer
    {
      timer.heapIndex == 0 <==> timer !in deadlines
    }

    constructor (now: int)
      requires now <= MAX_TIME
      ensures Valid() && Abs() == TimerSpec.State(map[], now)
      ensures fresh(activeTimers)
    {
      HeapPredIsStrictWeakOrder();
      this.now := now;
      deadlines, fireTimes := map[], map[];
      activeTimers := new Heap<Times>(HeapPred);
    }

    /** links.now = steady_clock::now() */
    method Tick(now: int)
      requires Valid() && this.now <= now <= MAX_TIME
      modifies this`now
      ensures Valid() && TimerSpec.Step(old(Abs()), TimerSpec.Clock(now), Abs())
    {
      this.now := now;
    }

    predicate IsSet(timer: Timer)
      reads timer
    {
      timer.InHeap()
    }

    /** Timer::once_at: moving a set timer into the future does not touch the heap. */
    method OnceAt(timer: Timer, at: int)
      requires Valid() && Owns(timer)
      modifies this`deadlines, this`fireTimes, activeTimers`storage, activeTimers`elements,
               activeTimers.elements`heapIndex, timer`heapIndex, timer`value
      ensures Valid() && Owns(timer)
      ensures TimerSpec.Step(old(Abs()), TimerSpec.Once(timer, at), Abs())
      ensures old(timer.heapIndex) != 0 && at >= old(timer.value.fireTime) ==>
        activeTimers.storage == old(activeTimers.storage)
        && forall t :: t in activeTimers.elements ==> t.heapIndex == old(t.heapIndex)
    {
      if IsSet(timer) && at >= timer.value.fireTime {
        MoveDeadline(timer, at);
      } else {
        TimerSpec.Overwrite(deadlines, timer, at);
        Cancel(timer);
        Arm(timer, at);
      }
    }

    /** Puts a timer that is not set into the heap. */
    method Arm(timer: Timer, at: int)
      requires Valid() && timer.heapIndex == 0 && timer !in deadlines
      modifies this`deadlines, this`fireTimes, activeTimers`storage, activeTimers`elements,
               activeTimers.elements`heapIndex, timer`heapIndex, timer`value
      ensures Valid() && timer.heapIndex != 0
      ensures deadlines == old(deadlines)[timer := at]
      ensures fireTimes == old(fireTimes)[timer := at]
    {
      timer.value := Times(at, at);
      Push(timer, at);
    }

    method Push(timer: Timer, at: int)
      requires Valid() && timer.heapIndex == 0 && timer !in deadlines && timer.value == Times(at, at)
      modifies this`deadlines, this`fireTimes, activeTimers`storage, activeTimers`elements,
               activeTimers.elements`heapIndex, timer`heapIndex
      ensures Valid() && timer.heapIndex != 0
      ensures deadlines == old(deadlines)[timer := at]
      ensures fireTimes == old(fireTimes)[timer := at]
    {
      var _ := activeTimers.Insert(timer);
      Enter(timer, at);
    }

    /** The deadline of the timer that is in the heap now. */
    ghost method Enter(timer: Timer, at: int)
      requires activeTimers.Valid() && activeTimers.less == HeapPred && now <= MAX_TIME
      requires deadlines.Keys == fireTimes.Keys && activeTimers.elements == deadlines.Keys + {timer}
      requires timer !in deadlines && timer.value == Times(at, at)
      requires forall t :: t in fireTimes ==> t.value == Times(fireTimes[t], deadlines[t]) && fireTimes[t] <= deadlines[t]
      modifies this`deadlines, this`fireTimes
      ensures Valid()
      ensures deadlines == old(deadlines)[timer := at] && fireTimes == old(fireTimes)[timer := at]
    {
      deadlines, fireTimes := deadlines[timer := at], fireTimes[timer := at];
    }

    /** The cheap path of once_at. */
    method MoveDeadline(timer: Timer, at: int)
      requires Valid() && timer in deadlines && at >= timer.value.fireTime
      modifies this`deadlines, timer`value
      ensures Valid() && deadlines == old(deadlines)[timer := at]
    {
      activeTimers.Replace(timer, timer.value.(movedFireTime := at));
      TimerSpec.KeysPut(deadlines, timer, at);
      deadlines := deadlines[timer := at];
    }

    /** Timer::once(duration), which clamps instead of overflowing. */
    method Once(timer: Timer, delay: int) returns (ghost at: int)
      requires Valid() && Owns(timer)
      modifies this`deadlines, this`fireTimes, activeTimers`storage, activeTimers`elements,
               activeTimers.elements`heapIndex, timer`heapIndex, timer`value
      ensures Valid() && Owns(timer)
      ensures TimerSpec.Step(old(Abs()), TimerSpec.Once(timer, at), Abs())
      ensures now <= at <= MAX_TIME
      ensures 0 <= delay <= MAX_TIME - now ==> at == now + delay
      ensures delay < 0 ==> at == now
      ensures delay > MAX_TIME - now ==> at == MAX_TIME
    {
      if delay <= 0 {
        at := now;
        OnceAt(timer, now);
      } else if delay >= MAX_TIME - now {
        at := MAX_TIME;
        OnceAt(timer, MAX_TIME);
      } else {
        at := now + delay;
        OnceAt(timer, now + delay);
      }
    }

    method Cancel(timer: Timer)
      requires Valid() && Owns(timer)
      modifies this`deadlines, this`fireTimes, activeTimers`storage, activeTimers`elements,
               activeTimers.elements`heapIndex, timer`heapIndex
      ensures Valid() && Owns(timer) && timer.heapIndex == 0
      ensures activeTimers.elements == old(activeTimers.elements) - {timer}
      ensures TimerSpec.Step(old(Abs()), TimerSpec.Cancel(timer), Abs())
    {
      var _ := activeTimers.Erase(timer);
      deadlines, fireTimes := deadlines - {timer}, fireTimes - {timer};
    }

    ghost predicate IsFirst(front: Timer)
      reads this
    {
      front in fireTimes && forall t :: t in fireTimes ==> fireTimes[front] <= fireTimes[t]
    }

    method FirstTimer() returns (front: Timer)
      requires Valid() && deadlines.Keys != {}
      ensures activeTimers.storage != [] && front == activeTimers.storage[0]
      ensures IsFirst(front)
    {
      front := activeTimers.Front();
    }

    method PopTimer(front: Timer)
      requires Valid() && activeTimers.storage != [] && front == activeTimers.storage[0]
      modifies this`deadlines, this`fireTimes, activeTimers`storage, activeTimers`elements, activeTimers.elements`heapIndex
      ensures Valid() && front.heapIndex == 0
      ensures activeTimers.elements == old(activeTimers.elements) - {front}
      ensures deadlines == old(deadlines) - {front} && fireTimes == old(fireTimes) - {front}
    {
      activeTimers.PopFront();
      deadlines, fireTimes := deadlines - {front}, fireTimes - {front};
    }

    /** The heap entry of the front timer has come up: the timer fires, unless it was moved
        into the future, then it is put back for its deadline. */
    method Surface(timer: Timer) returns (fires: bool)
      requires Valid() && activeTimers.storage != [] && timer == activeTimers.storage[0]
      requires timer.value.fireTime <= now
      modifies this`deadlines, this`fireTimes, activeTimers`storage, activeTimers`elements,
               activeTimers.elements`heapIndex, timer`value
      ensures Valid()
      ensures timer in old(deadlines) && fires == (old(deadlines)[timer] <= now)
      ensures fires ==> deadlines == old(deadlines) - {timer} && timer.heapIndex == 0
      ensures !fires ==> deadlines == old(deadlines) && fireTimes == old(fireTimes)[timer := deadlines[timer]]
    {
      assert timer in activeTimers.elements;
      TimerSpec.PutBack(deadlines, timer);
      TimerSpec.Overwrite(fireTimes, timer, deadlines[timer]);
      PopTimer(timer);
      if timer.value.movedFireTime > now {
        Arm(timer, timer.value.movedFireTime);
        return false;
      }
      return true;
    }

    /** One call fires at most one timer; `fired` is the timer whose handler runs last in the call. */
    method ProcessTimer(timeoutIn: int) returns (fired: Node?<Times>, timeoutMs: int)
      requires Valid()
      modifies this`deadlines, this`fireTimes, activeTimers`storage, activeTimers`elements,
               activeTimers.elements`heapIndex, activeTimers.elements`value
      ensures Valid()
      ensures fired != null ==> TimerSpec.Step(old(Abs()), TimerSpec.Fired(fired), Abs()) && fired.heapIndex == 0
      ensures fired == null ==> TimerSpec.Step(old(Abs()), TimerSpec.Quiet, Abs())
      ensures fired == null ==> SleepIsRight(timeoutIn, timeoutMs)
    {
      timeoutMs := timeoutIn;
      if activeTimers.Empty() {
        return null, timeoutMs;
      }
      var timer, fires := SkipStale();
      if fires {
        return timer, timeoutMs;
      }
      timeoutMs := SleepTime(timer, timeoutIn);
      return null, timeoutMs;
    }

    /** The rescheduling loop: it ends with a timer that fires, or with the timer to wait for. */
    method SkipStale() returns (timer: Timer, fires: bool)
      requires Valid() && !activeTimers.Empty()
      modifies this`deadlines, this`fireTimes, activeTimers`storage, activeTimers`elements,
               activeTimers.elements`heapIndex, activeTimers.elements`value
      ensures Valid() && timer in old(deadlines)
      ensures fires ==> old(deadlines)[timer] <= now && deadlines == old(deadlines) - {timer} && timer.heapIndex == 0
      ensures !fires ==> deadlines == old(deadlines) && now < timer.value.fireTime && IsFirst(timer)
    {
      while true
        invariant Valid() && deadlines == old(deadlines) && deadlines.Keys != {}
        decreases |Surfaced(fireTimes, now)|
      {
        var waits;
        timer, waits, fires := SurfaceFirst();
        if waits || fires {
          return;
        }
      }
    }

    /** One round of the loop above. */
    method SurfaceFirst() returns (timer: Timer, waits: bool, fires: bool)
      requires Valid() && deadlines.Keys != {}
      modifies this`deadlines, this`fireTimes, activeTimers`storage, activeTimers`elements,
               activeTimers.elements`heapIndex, activeTimers.elements`value
      ensures Valid() && timer in old(deadlines) && !(waits && fires)
      ensures fires ==> old(deadlines)[timer] <= now && deadlines == old(deadlines) - {timer} && timer.heapIndex == 0
      ensures !fires ==> deadlines == old(deadlines) && activeTimers.elements == old(activeTimers.elements)
      ensures waits ==> now < timer.value.fireTime && IsFirst(timer)
      ensures !fires && !waits ==> |Surfaced(fireTimes, now)| < |Surfaced(old(fireTimes), now)|
    {
      timer := FirstTimer();
      if timer.value.fireTime > now {
        return timer, true, false;
      }
      ghost var before := fireTimes;
      waits := false;
      fires := Surface(timer);
      if !fires {
        RescheduleShrinks(before, now, timer, deadlines[timer]);
      }
    }

    /** The end of process_timer when nothing is due. */
    method SleepTime(front: Timer, timeoutIn: int) returns (timeoutMs: int)
      requires Valid() && now < front.value.fireTime
      requires IsFirst(front)
      ensures TimerSpec.Step(Abs(), TimerSpec.Quiet, Abs())
      ensures SleepIsRight(timeoutIn, timeoutMs)
    {
      timeoutMs := timeoutIn;
      if front.value.fireTime < now + MAX_SLEEP_MS * TICKS_PER_MS {
        timeoutMs := 1 + (front.value.fireTime - now) / TICKS_PER_MS;
      }
      assert WakesFor(front, timeoutIn, timeoutMs);
    }

    /** `front` comes up first, and the sleep ends after that by no more than a millisecond,
        unless it is further away than the longest sleep, which the caller passes in. */
    ghost predicate WakesFor(front: Timer, timeoutIn: int, timeoutMs: int)
      reads this
    {
      && IsFirst(front)
      && if fireTimes[front] - now >= MAX_SLEEP_MS * TICKS_PER_MS
         then timeoutMs == timeoutIn
         else 1 <= timeoutMs <= MAX_SLEEP_MS
              && fireTimes[front] < now + timeoutMs * TICKS_PER_MS <= fireTimes[front] + TICKS_PER_MS
    }

    ghost predicate SleepIsRight(timeoutIn: int, timeoutMs: int)
      reads this
    {
      if fireTimes == map[] then timeoutMs == timeoutIn
      else exists front :: front in fireTimes && WakesFor(front, timeoutIn, timeoutMs)
    }
  }
}
