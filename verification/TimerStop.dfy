/**
  Stopping a timer (FreeRTOS/Source/timers.c).  Commands and the timers' own restarts share one queue, so a
  stop command can be overtaken; here is when it holds.
*/
module TimerStops {
  import opened TaskLists
  import opened TickTime
  import opened TimerLists
  import opened Timers

  // ---------- stopping ----------

  /** Timer 1, of period 10, with `calls` and `queue` as given */
  function TimerOne(current: seq<TimerId>, value: nat, last: nat, queue: seq<Message>, calls: seq<Call>): D {
    D(map[1 := Timer(10, true)], current, [], map[1 := value], last, 0, queue, calls)
  }

  lemma OvertakenFirst(d: D)
    requires d == TimerOne([1], 10, 0, [Message(Stop, 1, 0, 0)], [])
    ensures Valid(d)
    ensures ProcessTimers(d, 25) == TimerOne([], 20, 25, [Message(Stop, 1, 0, 0), Message(Start, 1, 10, 10)], [Call(1, 10)])
  {
    var d1 := d.(last := 25);
    assert Sample(d, 25) == d1;
    ExpiredNow(d1);
  }

  lemma ExpiredNow(d: D)
    requires d == TimerOne([1], 10, 25, [Message(Stop, 1, 0, 0)], [])
    ensures ProcessExpired(d) == TimerOne([], 20, 25, [Message(Stop, 1, 0, 0), Message(Start, 1, 10, 10)], [Call(1, 10)])
  {
    var d1 := d.(current := []);
    assert Valid(d);
    ExpiredParts(d, 1, d1, 20);
    assert Late(20, 25, 10, 10);
    assert InsertTimer(d1, 1, 20, 10) == d1.(value := map[1 := 20]);
  }

  lemma OvertakenSecond(d: D)
    requires d == TimerOne([], 20, 25, [Message(Stop, 1, 0, 0), Message(Start, 1, 10, 10)], [Call(1, 10)])
    ensures Valid(d) && Receive(d, 25) == TimerOne([], 20, 25, [Message(Start, 1, 10, 10)], [Call(1, 10)])
  {
  }

  lemma OvertakenThird(d: D)
    requires d == TimerOne([], 20, 25, [Message(Start, 1, 10, 10)], [Call(1, 10)])
    ensures Valid(d) && Receive(d, 25).calls == [Call(1, 10), Call(1, 20)]
  {
    var d1 := d.(queue := []);
    assert Receive(d, 25) == Obey(d1, Message(Start, 1, 10, 10));
    InsertQueue(d1, 1, 20, 10);
    StartParts(d1, Message(Start, 1, 10, 10), 10, 20, InsertTimer(d1, 1, 20, 10));
  }

  /** A stop command does not hold when the daemon has already sent the timer's own start command behind
      it: the timer's callback is called after the stop was obeyed. */
  lemma StopIsOvertaken()
    ensures var d := D(map[1 := Timer(10, true)], [1], [], map[1 := 10], 0, 0, [Message(Stop, 1, 0, 0)], []);
            && Valid(d)
            && var d1 := ProcessTimers(d, 25);
               && Valid(d1) && d1.queue == [Message(Stop, 1, 0, 0), Message(Start, 1, 10, 10)]
               && var d2 := Receive(d1, 25);
                  && Valid(d2) && d2.queue == [Message(Start, 1, 10, 10)] && !Listed(d2, 1)
                  && d2.calls == [Call(1, 10)] && Receive(d2, 25).calls == [Call(1, 10), Call(1, 20)]
  {
    OvertakenFirst(TimerOne([1], 10, 0, [Message(Stop, 1, 0, 0)], []));
    OvertakenSecond(TimerOne([], 20, 25, [Message(Stop, 1, 0, 0), Message(Start, 1, 10, 10)], [Call(1, 10)]));
    OvertakenThird(TimerOne([], 20, 25, [Message(Start, 1, 10, 10)], [Call(1, 10)]));
  }

  // ---------- only stop commands on their way ----------

  ghost predicate OnlyStops(queue: seq<Message>, t: TimerId) {
    forall m | m in MessagesFor(queue, t) :: m.command == Stop
  }

  /** Timer `t` rests: it is in no list, nothing but stop commands are on their way to it, and it had no new
      callback. */
  ghost predicate Rests(d: D, d': D, t: TimerId) {
    && !Listed(d', t) && OnlyStops(d'.queue, t) && CallsFor(d'.calls, t) == CallsFor(d.calls, t)
  }

  /** The switch of the lists leaves a timer alone that is not in the list of the epoch that ends. */
  lemma {:induction false} SwitchOutside(d: D, t: TimerId)
    requires Valid(d) && t !in d.current
    ensures var d' := SwitchLists(d);
            && MessagesFor(d'.queue, t) == MessagesFor(d.queue, t) && CallsFor(d'.calls, t) == CallsFor(d.calls, t)
            && (t in d'.current <==> t in d.overflow) && t !in d'.overflow
            && ValueOf(d'.value, t) == ValueOf(d.value, t)
    decreases Left(d.current, d.value)
  {
    if d.current != [] {
      DrainOneKeeps(d, d.current[0]);
      DrainOneQueue(d, t, d.current[0]);
      SwitchOutside(DrainOne(d), t);
    }
  }

  lemma RestingCheck(d: D, t: TimerId, now: nat)
    requires Valid(d) && Now(d) <= now < Now(d) + EPOCH && !Listed(d, t) && OnlyStops(d.queue, t)
    ensures Rests(d, ProcessTimers(d, now), t)
  {
    var d1 := Sample(d, now);
    SwitchOutside(d, t);
    SampleTime(d, now);
    if now % EPOCH >= d.last && d.current != [] && ValueOf(d.value, d.current[0]) <= d1.last {
      ExpiredKeeps(d1);
      ExpiredQueue(d1, t, d1.current[0]);
    }
  }

  lemma RestingReceive(d: D, t: TimerId, now: nat, m: Message)
    requires Valid(d) && CanReceive(d, now) && m == d.queue[0] && !Listed(d, t) && OnlyStops(d.queue, t)
    ensures Rests(d, Receive(d, now), t)
  {
    var d1 := d.(queue := d.queue[1..]);
    assert MessagesFor(d.queue, t) == (if m.timer == t then [m] else []) + MessagesFor(d1.queue, t);
    assert m.timer == t ==> m in MessagesFor(d.queue, t);
    if m.timer in d.timers {
      var d2 := Unlist(d1, m.timer);
      UnlistKeeps(d1, m.timer);
      SwitchOutside(d2, t);
      SampleTime(d2, now);
      SampleUnlisted(d2, m.timer, now);
      if m.timer != t {
        ObeyKeeps(Sample(d2, now), m);
        ObeyQueue(Sample(d2, now), m, t);
      }
    }
  }

  lemma RestingStep(d: D, t: TimerId, step: Step)
    requires Valid(d) && Enabled(d, step) && !Listed(d, t) && OnlyStops(d.queue, t)
    requires step.Post? ==> step.m.timer != t
    ensures Rests(d, Next(d, step), t)
  {
    match step
    case CheckTimers(now) => RestingCheck(d, t, now);
    case TakeCommand(now) => RestingReceive(d, t, now, d.queue[0]);
    case Post(m) => MessagesAppend(d.queue, m, t);
  }

  ghost predicate WithoutPosts(steps: seq<Step>, t: TimerId) {
    forall s | s in steps :: s.Post? ==> s.m.timer != t
  }

  lemma {:induction false} RestingRun(d: D, t: TimerId, steps: seq<Step>)
    requires Valid(d) && Admissible(d, steps) && WithoutPosts(steps, t) && !Listed(d, t) && OnlyStops(d.queue, t)
    ensures Rests(d, Run(d, steps), t)
    decreases |steps|
  {
    if steps != [] {
      RestingStep(d, t, steps[0]);
      RestingRun(Next(d, steps[0]), t, steps[1..]);
    }
  }

  // ---------- any other command brings a callback ----------

  /** A run without posts brings a callback of timer `t`. */
  ghost predicate Rouses(d: D, t: TimerId, steps: seq<Step>)
    requires Valid(d)
  {
    Admissible(d, steps) && WithoutPosts(steps, t) && CallsFor(Run(d, steps).calls, t) != CallsFor(d.calls, t)
  }

  lemma RousesAt(d: D, t: TimerId, step: Step, d': D)
    requires Valid(d) && Enabled(d, step) && !step.Post? && d' == Next(d, step)
    requires CallsFor(d'.calls, t) != CallsFor(d.calls, t)
    ensures Rouses(d, t, [step])
  {
    assert [step][1..] == [];
    assert Run(d', []) == d' && Run(d, [step]) == Run(d', [step][1..]);
  }

  lemma RousesLater(d: D, t: TimerId, step: Step, d': D, steps: seq<Step>)
    requires Valid(d) && Enabled(d, step) && !step.Post? && d' == Next(d, step)
    requires CallsFor(d'.calls, t) == CallsFor(d.calls, t) && Rouses(d', t, steps)
    ensures Rouses(d, t, [step] + steps)
  {
    assert ([step] + steps)[1..] == steps;
  }

  /** A timer keeps its place when another one with a later value is inserted. */
  lemma {:induction false} PlaceKept(s: seq<TimerId>, t: TimerId, u: TimerId, value: map<TimerId, nat>)
    requires SortedBy(s, value) && t in s && u != t && ValueOf(value, t) <= ValueOf(value, u)
    ensures PlaceIn(Insertion(s, u, value), t) == PlaceIn(s, t)
  {
    if s[0] != t {
      assert SortedBy(s[1..], value);
      PlaceKept(s[1..], t, u, value);
    }
  }

  lemma InsertedBehind(d: D, t: TimerId, u: TimerId, next: nat, command: nat)
    requires Valid(d) && t in d.current && u != t && !Listed(d, u) && u in d.timers && next < EPOCH
    requires ValueOf(d.value, t) <= d.last
    ensures PlaceIn(InsertTimer(d, u, next, command).current, t) == PlaceIn(d.current, t)
  {
    InsertKeeps(d, u, next, command);
    Aside(d.current, u, d.value, next, d.timers);
    ValueMove(d.value, u, next);
    if next > d.last {
      PlaceKept(d.current, t, u, d.value[u := next]);
    }
  }

  /** A timer that is due comes one place nearer to the head when the head is processed. */
  lemma Nearer(d: D, d': D, t: TimerId, u: TimerId)
    requires Valid(d) && t in d.current && u == d.current[0] && u != t && ValueOf(d.value, t) <= d.last
    requires d' == ProcessExpired(d)
    ensures PlaceIn(d'.current, t) < PlaceIn(d.current, t)
  {
    var v := ValueOf(d.value, u);
    var d1 := d.(current := d.current[1..]);
    var next := Wrap(v + TimerOf(d.timers, u).period);
    PopKeeps(d, u, d1);
    ExpiredParts(d, u, d1, next);
    InsertedBehind(d1, t, u, next, v);
  }

  /** Rounds at time `now`, in the epoch of the current list, reach a timer of that list that is due. */
  lemma {:induction false} DueTimerIsCalled(d: D, t: TimerId, now: nat) returns (steps: seq<Step>)
    requires Valid(d) && t in d.current && Now(d) <= now && now / EPOCH == d.epochs
    requires ValueOf(d.value, t) <= now % EPOCH
    ensures Rouses(d, t, steps)
    decreases PlaceIn(d.current, t)
  {
    var u, d1 := d.current[0], d.(last := now % EPOCH);
    SameEpoch(d, now);
    HeadIsLeast(d.current, d.value, t);
    assert ProcessTimers(d, now) == ProcessExpired(d1);
    ExpiredQueue(d1, t, u);
    if t == u {
      steps := [CheckTimers(now)];
      RousesAt(d, t, CheckTimers(now), ProcessExpired(d1));
    } else {
      ExpiredKeeps(d1);
      Nearer(d1, ProcessExpired(d1), t, u);
      EpochParts(now);
      var rest := DueTimerIsCalled(ProcessExpired(d1), t, now);
      steps := [CheckTimers(now)] + rest;
      RousesLater(d, t, CheckTimers(now), ProcessExpired(d1), rest);
    }
  }

  lemma SameEpoch(d: D, now: nat)
    requires Valid(d) && Now(d) <= now && now / EPOCH == d.epochs
    ensures now % EPOCH >= d.last && now < Now(d) + EPOCH && now == d.epochs * EPOCH + now % EPOCH
  {
    EpochParts(now);
  }

  lemma NextEpoch(d: D, now: nat, v: nat)
    requires Valid(d) && now == (d.epochs + 1) * EPOCH + v < Now(d) + EPOCH && v < EPOCH
    ensures now % EPOCH == v < d.last && now / EPOCH == d.epochs + 1 && Now(d) <= now
  {
  }

  lemma ThisEpoch(d: D, now: nat, v: nat)
    requires now == d.epochs * EPOCH + v && v < EPOCH
    ensures now % EPOCH == v && now / EPOCH == d.epochs
  {
  }

  /** A listed timer is called by rounds at its expiry time, after a switch of the lists if that is in the
      next epoch. */
  lemma ListedTimerIsCalled(d: D, t: TimerId, due: nat) returns (steps: seq<Step>)
    requires Valid(d) && Listed(d, t) && due == Expiry(d, t) && Now(d) <= due < Now(d) + EPOCH
    ensures Rouses(d, t, steps)
  {
    var v := ValueOf(d.value, t);
    if t in d.current {
      ThisEpoch(d, due, v);
      steps := DueTimerIsCalled(d, t, due);
    } else {
      NextEpoch(d, due, v);
      SwitchOutside(d, t);
      SwitchKeeps(d);
      SampleTime(d, due);
      var d1 := Next(d, CheckTimers(due));
      assert d1 == SwitchLists(d).(last := v);
      var rest := DueTimerIsCalled(d1, t, due);
      steps := [CheckTimers(due)] + rest;
      RousesLater(d, t, CheckTimers(due), d1, rest);
    }
  }

  /** A start command is less than 2^32 ticks old and carries its time, and a new period is positive. */
  predicate TimelyMessage(m: Message, now: nat) {
    && (m.command == Start ==> m.at <= now < m.at + EPOCH && m.value == Wrap(m.at))
    && (m.command == ChangePeriod ==> 0 < m.value < EPOCH)
  }

  ghost predicate Timely(d: D) {
    forall m | m in d.queue :: TimelyMessage(m, Now(d))
  }

  /** Taking a command at the time of the last sample switches no lists. */
  lemma ReceiveNow(d: D, m: Message, d1: D)
    requires Valid(d) && d.queue != [] && m == d.queue[0] && m.timer in d.timers
    requires d1 == Unlist(d.(queue := d.queue[1..]), m.timer)
    ensures Receive(d, Now(d)) == Obey(d1, m)
    ensures Valid(d1) && !Listed(d1, m.timer) && Now(d1) == Now(d)
  {
    NowParts(d);
    UnlistKeeps(d.(queue := d.queue[1..]), m.timer);
  }

  lemma ObeyAppends(d: D, m: Message)
    ensures d.queue <= Obey(d, m).queue
    ensures Obey(d, m).timers.Keys == d.timers.Keys + if m.command == ChangePeriod then {m.timer} else {}
  {
  }

  /** What a start or a new period does to timer `t`: it is called, or listed for a time less than 2^32 ticks
      ahead. */
  lemma ObeyRouses(d: D, m: Message, t: TimerId, d': D)
    requires Valid(d) && !Listed(d, t) && t in d.timers && m.timer == t && m.command != Stop
    requires TimelyMessage(m, Now(d)) && d' == Obey(d, m)
    ensures || CallsFor(d'.calls, t) != CallsFor(d.calls, t)
            || (CallsFor(d'.calls, t) == CallsFor(d.calls, t) && Listed(d', t) && Now(d) <= Expiry(d', t) < Now(d) + EPOCH)
  {
    if m.command == Start {
      StartRouses(d, m, t, d', TimerOf(d.timers, t).period);
    } else {
      ChangeRouses(d, m, t, d', d.(timers := d.timers[t := TimerOf(d.timers, t).(period := m.value)]));
    }
  }

  lemma StartRouses(d: D, m: Message, t: TimerId, d': D, p: nat)
    requires Valid(d) && !Listed(d, t) && t in d.timers && m.timer == t && m.command == Start
    requires TimelyMessage(m, Now(d)) && d' == Obey(d, m) && p == TimerOf(d.timers, t).period
    ensures d'.timers == d.timers
    ensures Now(d) >= m.at + p ==> !Listed(d', t) && d'.calls == d.calls + [Call(t, m.at + p)]
    ensures Now(d) >= m.at + p ==> CallsFor(d'.calls, t) != CallsFor(d.calls, t)
    ensures Now(d) < m.at + p ==> d'.calls == d.calls && Listed(d', t) && Expiry(d', t) == m.at + p < Now(d) + EPOCH
  {
    var next := Wrap(m.value + p);
    var d1 := InsertTimer(d, t, next, m.value);
    InsertIsExact(d, d1, t, m.at, next, m.value);
    InsertQueue(d, t, next, m.value);
    CallsAppend(d.calls, Call(t, m.at + p), t);
  }

  lemma ChangeRouses(d: D, m: Message, t: TimerId, d': D, d1: D)
    requires Valid(d) && !Listed(d, t) && t in d.timers && m.timer == t && m.command == ChangePeriod
    requires TimelyMessage(m, Now(d)) && d' == Obey(d, m)
    requires d1 == d.(timers := d.timers[t := TimerOf(d.timers, t).(period := m.value)])
    ensures d'.timers == d1.timers && d'.calls == d.calls && Listed(d', t)
    ensures Expiry(d', t) == Now(d) + m.value < Now(d) + EPOCH
  {
    var next := Wrap(d.last + m.value);
    PeriodKeeps(d, t, m.value, d1);
    NowParts(d);
    InsertIsExact(d1, d', t, Now(d), next, d.last);
    InsertQueue(d1, t, next, d.last);
  }

  /** Message `m` has been carried out at the time of `d`. */
  predicate Carried(m: Message, d: D) {
    var t, p := m.timer, TimerOf(d.timers, m.timer).period;
    match m.command
    case Stop => !Listed(d, t)
    case ChangePeriod => p == m.value && Listed(d, t) && Expiry(d, t) == Now(d) + p
    case Start => if Now(d) >= m.at + p then !Listed(d, t) && Call(t, m.at + p) in d.calls
                  else Listed(d, t) && Expiry(d, t) == m.at + p
  }

  lemma CommandResult(d: D, now: nat, d': D, m: Message)
    requires Valid(d) && CanReceive(d, now) && m == d.queue[0] && TimelyMessage(m, now) && d' == Receive(d, now)
    requires m.timer in d.timers
    ensures Now(d') == now && Carried(m, d')
  {
    var d1 := d.(queue := d.queue[1..]);
    var d2 := Unlist(d1, m.timer);
    UnlistKeeps(d1, m.timer);
    SampleTime(d2, now);
    SampleUnlisted(d2, m.timer, now);
    ObeyKeeps(Sample(d2, now), m);
    ObeyCarries(Sample(d2, now), m, d');
  }

  lemma ObeyCarries(d: D, m: Message, d': D)
    requires Valid(d) && m.timer in d.timers && !Listed(d, m.timer) && TimelyMessage(m, Now(d)) && d' == Obey(d, m)
    requires Now(d') == Now(d)
    ensures Carried(m, d')
  {
    match m.command
    case Stop =>
    case ChangePeriod =>
      ChangeRouses(d, m, m.timer, d', d.(timers := d.timers[m.timer := TimerOf(d.timers, m.timer).(period := m.value)]));
    case Start => StartRouses(d, m, m.timer, d', TimerOf(d.timers, m.timer).period);
  }

  /** Is message `k` the first one for `t` in the queue that is no stop? */
  ghost predicate FirstRousing(queue: seq<Message>, t: TimerId, k: nat) {
    && k < |queue| && queue[k].timer == t && queue[k].command != Stop
    && forall i | 0 <= i < k :: queue[i].timer == t ==> queue[i].command == Stop
  }

  lemma {:induction false} FindRousing(queue: seq<Message>, t: TimerId) returns (k: nat)
    requires !OnlyStops(queue, t)
    ensures FirstRousing(queue, t, k)
  {
    if queue[0].timer == t && queue[0].command != Stop {
      k := 0;
    } else {
      k := FindRousing(queue[1..], t);
      k := k + 1;
    }
  }

  /** Taking a message that is no start or new period of `t` brings the next one to the head of the queue. */
  lemma TakesOther(d: D, t: TimerId, m: Message, d': D)
    requires Valid(d) && !Listed(d, t) && t in d.timers && d.queue != [] && m == d.queue[0]
    requires TimelyMessage(m, Now(d)) && (m.timer == t ==> m.command == Stop) && d' == Receive(d, Now(d))
    ensures Valid(d') && Now(d') == Now(d) && !Listed(d', t) && t in d'.timers && d.queue[1..] <= d'.queue
    ensures CallsFor(d'.calls, t) == CallsFor(d.calls, t)
  {
    if m.timer in d.timers {
      var d1 := Unlist(d.(queue := d.queue[1..]), m.timer);
      ReceiveNow(d, m, d1);
      UnlistKeeps(d.(queue := d.queue[1..]), m.timer);
      ObeyKeeps(d1, m);
      ObeyAppends(d1, m);
      if m.timer != t {
        ObeyQueue(d1, m, t);
      }
    }
  }

  /** Commands taken at once up to the first one for `t` that is no stop, and then rounds over the lists at
      the expiry time of `t`, bring a callback. */
  lemma {:induction false} CommandIsObeyed(d: D, t: TimerId, k: nat) returns (steps: seq<Step>)
    requires Valid(d) && !Listed(d, t) && t in d.timers && FirstRousing(d.queue, t, k)
    requires forall i | 0 <= i <= k :: TimelyMessage(d.queue[i], Now(d))
    ensures Rouses(d, t, steps)
    decreases k
  {
    var m, take := d.queue[0], TakeCommand(Now(d));
    var d' := Next(d, take);
    if k > 0 {
      TakesOther(d, t, m, d');
      assert forall i | 0 <= i < |d.queue| - 1 :: d'.queue[i] == d.queue[i + 1];
      var rest := CommandIsObeyed(d', t, k - 1);
      steps := [take] + rest;
      RousesLater(d, t, take, d', rest);
    } else {
      var d1 := Unlist(d.(queue := d.queue[1..]), t);
      ReceiveNow(d, m, d1);
      ObeyKeeps(d1, m);
      ObeyRouses(d1, m, t, d');
      if CallsFor(d'.calls, t) != CallsFor(d.calls, t) {
        steps := [take];
        RousesAt(d, t, take, d');
      } else {
        var rest := ListedTimerIsCalled(d', t, Expiry(d', t));
        steps := [take] + rest;
        RousesLater(d, t, take, d', rest);
      }
    }
  }

  // ---------- when a stop holds ----------

  /** In no run without a new command for `t` does its callback come. */
  ghost predicate StaysStopped(d: D, t: TimerId)
    requires Valid(d)
  {
    forall steps | Admissible(d, steps) && WithoutPosts(steps, t) ::
      CallsFor(Run(d, steps).calls, t) == CallsFor(d.calls, t)
  }

  /** A stopped timer stays stopped if and only if every message for it that is still in the queue is another
      stop. */
  lemma StopHoldsIff(d: D, t: TimerId)
    requires Valid(d) && t in d.timers && !Listed(d, t) && Timely(d)
    ensures StaysStopped(d, t) <==> forall m | m in MessagesFor(d.queue, t) :: m.command == Stop
  {
    if OnlyStops(d.queue, t) {
      forall steps | Admissible(d, steps) && WithoutPosts(steps, t)
        ensures CallsFor(Run(d, steps).calls, t) == CallsFor(d.calls, t)
      {
        RestingRun(d, t, steps);
      }
    } else {
      var k := FindRousing(d.queue, t);
      var steps := CommandIsObeyed(d, t, k);
      assert Rouses(d, t, steps);
    }
  }

  /** So a stop that is obeyed holds exactly when only further stops stood behind it in the queue. */
  lemma ObeyedStopHoldsIff(d: D, t: TimerId, now: nat)
    requires Valid(d) && t in d.timers && CanReceive(d, now) && d.queue[0].timer == t && d.queue[0].command == Stop
    requires Timely(Next(d, TakeCommand(now)))
    ensures var d' := Next(d, TakeCommand(now));
            && !Listed(d', t) && CallsFor(d'.calls, t) == CallsFor(d.calls, t)
            && (StaysStopped(d', t) <==> forall m | m in MessagesFor(d.queue[1..], t) :: m.command == Stop)
  {
    var d1 := d.(queue := d.queue[1..]);
    UnlistKeeps(d1, t);
    SwitchOutside(Unlist(d1, t), t);
    SampleUnlisted(Unlist(d1, t), t, now);
    StopHoldsIff(Next(d, TakeCommand(now)), t);
  }
}
