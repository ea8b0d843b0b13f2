/**
  The software timer daemon (FreeRTOS/Source/timers.c): two lists of timers by expiry time that change
  places when the tick count wraps, and a queue of commands by which timers also restart themselves.
*/
module TimerLists {
  import opened TaskLists
  import opened TickTime

  type TimerId = Task

  datatype Timer = Timer(period: nat, autoReload: bool)

  datatype Command = Start | Stop | ChangePeriod

  /** A message in the command queue.  `value` is what the daemon reads; for a start command it is the
      wrapped form of `at`, the unbounded time of the command. */
  datatype Message = Message(command: Command, timer: TimerId, value: nat, at: nat)

  /** A call of a timer's callback for the expiry at unbounded time `due` */
  datatype Call = Call(timer: TimerId, due: nat)

  datatype D = D(
    timers: map<TimerId, Timer>,
    current: seq<TimerId>,            // pxCurrentTimerList
    overflow: seq<TimerId>,           // pxOverflowTimerList
    value: map<TimerId, nat>,         // list item values
    last: nat,                        // xLastTime
    epochs: nat,                      // how often the lists were switched
    queue: seq<Message>,
    calls: seq<Call>)

  // ---------- reading the state ----------

  /** The unbounded time of the last sample. */
  function Now(d: D): nat {
    d.epochs * EPOCH + d.last
  }

  predicate Listed(d: D, t: TimerId) {
    t in d.current || t in d.overflow
  }

  /** The unbounded expiry time of a listed timer. */
  function Expiry(d: D, t: TimerId): nat {
    (if t in d.current then d.epochs else d.epochs + 1) * EPOCH + ValueOf(d.value, t)
  }

  function TimerOf(timers: map<TimerId, Timer>, t: TimerId): Timer {
    if t in timers then timers[t] else Timer(1, false)
  }

  ghost predicate Once(current: seq<TimerId>, overflow: seq<TimerId>) {
    forall t: TimerId :: multiset(current)[t] + multiset(overflow)[t] <= 1
  }

  ghost predicate InRange(s: seq<TimerId>, timers: map<TimerId, Timer>, value: map<TimerId, nat>) {
    forall t | t in s :: t in timers && ValueOf(value, t) < EPOCH
  }

  ghost predicate Periods(timers: map<TimerId, Timer>) {
    forall t | t in timers :: 0 < timers[t].period < EPOCH
  }

  /** No timer is listed twice, and both lists are in order. */
  ghost predicate Valid(d: D) {
    && Once(d.current, d.overflow)
    && SortedBy(d.current, d.value) && SortedBy(d.overflow, d.value)
    && InRange(d.current, d.timers, d.value) && InRange(d.overflow, d.timers, d.value)
    && Periods(d.timers)
    && d.last < EPOCH
  }

  // ---------- the daemon's functions ----------

  /** prvInsertTimerInActiveList: must the timer be processed at once? */
  predicate Late(next: nat, now: nat, command: nat, period: nat) {
    if next <= now then Wrap(now - command) >= period
    else now < command && next >= command
  }

  /** prvInsertTimerInActiveList, for a timer that is in no list */
  function InsertTimer(d: D, t: TimerId, next: nat, command: nat): D {
    var v := d.value[t := next];
    if Late(next, d.last, command, TimerOf(d.timers, t).period) then d.(value := v)
    else if next <= d.last then d.(value := v, overflow := Insertion(d.overflow, t, v))
    else d.(value := v, current := Insertion(d.current, t, v))
  }

  /** xTimerGenericCommand with tmrCOMMAND_START_DONT_TRACE */
  function Restart(d: D, t: TimerId, value: nat, at: nat): D {
    d.(queue := d.queue + [Message(Start, t, value, at)])
  }

  /** The timer's callback is called. */
  function Fire(d: D, t: TimerId, due: nat): D {
    d.(calls := d.calls + [Call(t, due)])
  }

  /** prvProcessExpiredTimer */
  function ProcessExpired(d: D): D
    requires d.current != []
  {
    var t := d.current[0];
    var v, p := ValueOf(d.value, t), TimerOf(d.timers, t).period;
    var due := Expiry(d, t);
    var d1 := d.(current := d.current[1..]);
    var d2 := if !TimerOf(d.timers, t).autoReload then d1
              else if Late(Wrap(v + p), d.last, v, p) then Restart(InsertTimer(d1, t, Wrap(v + p), v), t, v, due)
              else InsertTimer(d1, t, Wrap(v + p), v);
    Fire(d2, t, due)
  }

  /** One round of the loop of prvSwitchTimerLists */
  function DrainOne(d: D): D
    requires d.current != []
  {
    var t := d.current[0];
    var v, p := ValueOf(d.value, t), TimerOf(d.timers, t).period;
    var due := Expiry(d, t);
    var d1 := Fire(d.(current := d.current[1..]), t, due);
    if !TimerOf(d.timers, t).autoReload then d1
    else if Wrap(v + p) > v then
      var v' := d1.value[t := Wrap(v + p)];
      d1.(value := v', current := Insertion(d1.current, t, v'))
    else Restart(d1, t, v, due)
  }

  /** uxListRemove on a timer in either list */
  function Unlist(d: D, t: TimerId): D {
    d.(current := Without(d.current, t), overflow := Without(d.overflow, t))
  }

  // ---------- the insertion decision ----------

  /** Whatever the wraps, the decision compares the period with the time since the command modulo
      2^32. */
  lemma LateMeaning(now: nat, command: nat, period: nat)
    requires now < EPOCH && command < EPOCH && 0 < period < EPOCH
    ensures Late(Wrap(command + period), now, command, period) <==> Wrap(now - command) >= period
  {
  }

  /** It is the decision on unbounded times exactly when the command is less than 2^32 ticks old or the
      remainder already reaches the period. */
  lemma LateRightIff(now: nat, at: nat, period: nat)
    requires at <= now && 0 < period < EPOCH
    ensures (Late(Wrap(at + period), now % EPOCH, Wrap(at), period) <==> now - at >= period)
       <==> (now - at < EPOCH || Wrap(now - at) >= period)
  {
    Difference(at, now);
    LateMeaning(now % EPOCH, at % EPOCH, period);
    WrapTwice(at, period);
  }

  /** A timer that is not late goes into the list of the epoch of its expiry. */
  lemma ListOfEpoch(now: nat, next: nat)
    requires now < next < now + EPOCH
    ensures next % EPOCH <= now % EPOCH ==> next / EPOCH == now / EPOCH + 1
    ensures next % EPOCH > now % EPOCH ==> next / EPOCH == now / EPOCH
  {
    Difference(now, next);
  }

  // ---------- what list operations keep ----------

  /** Only timer `t` may change its place or value. */
  ghost predicate Others(d: D, d': D, t: TimerId) {
    && d'.epochs == d.epochs && d'.last == d.last
    && forall u | u != t ::
         && (u in d'.timers <==> u in d.timers) && TimerOf(d'.timers, u) == TimerOf(d.timers, u)
         && (u in d'.current <==> u in d.current)
         && (u in d'.overflow <==> u in d.overflow)
         && ValueOf(d'.value, u) == ValueOf(d.value, u)
  }

  lemma ValueMove(value: map<TimerId, nat>, t: TimerId, v: nat)
    ensures forall u :: ValueOf(value[t := v], u) == if u == t then v else ValueOf(value, u)
  {
    forall u
      ensures ValueOf(value[t := v], u) == if u == t then v else ValueOf(value, u)
    {
    }
  }

  lemma NotIn(s: seq<TimerId>, t: TimerId)
    requires t !in s
    ensures multiset(s)[t] == 0
  {
  }

  /** One list after a timer that was in none is inserted with value `v`. */
  lemma InsertInto(s: seq<TimerId>, t: TimerId, value: map<TimerId, nat>, v: nat, timers: map<TimerId, Timer>)
    requires SortedBy(s, value) && InRange(s, timers, value) && t !in s && t in timers && v < EPOCH
    ensures SortedBy(Insertion(s, t, value[t := v]), value[t := v])
    ensures InRange(Insertion(s, t, value[t := v]), timers, value[t := v])
    ensures forall u :: u in Insertion(s, t, value[t := v]) <==> u in s || u == t
  {
    var value' := value[t := v];
    NotIn(s, t);
    SortedElsewhere(s, value, t, v);
    InsertionSorted(s, t, value');
    InsertionMembers(s, t, value');
    InsertionAddsOne(s, t, value');
    ValueMove(value, t, v);
    forall u | u in s || u == t
      ensures u in Insertion(s, t, value')
    {
      InSequence(Insertion(s, t, value'), u);
      InSequence(s, u);
    }
  }

  lemma Aside(s: seq<TimerId>, t: TimerId, value: map<TimerId, nat>, v: nat, timers: map<TimerId, Timer>)
    requires SortedBy(s, value) && InRange(s, timers, value) && t !in s
    ensures SortedBy(s, value[t := v]) && InRange(s, timers, value[t := v])
  {
    NotIn(s, t);
    SortedElsewhere(s, value, t, v);
    ValueMove(value, t, v);
  }

  lemma OnceInsertion(s: seq<TimerId>, o: seq<TimerId>, t: TimerId, value: map<TimerId, nat>)
    requires Once(s, o) && t !in s && t !in o
    ensures Once(Insertion(s, t, value), o) && Once(s, Insertion(o, t, value))
  {
    InsertionAddsOne(s, t, value);
    InsertionAddsOne(o, t, value);
    NotIn(s, t);
    NotIn(o, t);
    forall u: TimerId
      ensures multiset(Insertion(s, t, value))[u] + multiset(o)[u] <= 1
      ensures multiset(s)[u] + multiset(Insertion(o, t, value))[u] <= 1
    {
      assert multiset(s)[u] + multiset(o)[u] <= 1;
    }
  }

  lemma OnceRest(s: seq<TimerId>, o: seq<TimerId>)
    requires Once(s, o) && s != []
    ensures Once(s[1..], o) && s[0] !in s[1..] && s[0] !in o
    ensures forall u | u != s[0] :: u in s[1..] <==> u in s
  {
    assert s == [s[0]] + s[1..];
    assert multiset(s)[s[0]] + multiset(o)[s[0]] <= 1;
    InSequence(s[1..], s[0]);
    InSequence(o, s[0]);
    forall u: TimerId
      ensures multiset(s[1..])[u] + multiset(o)[u] <= 1
    {
      assert multiset(s)[u] + multiset(o)[u] <= 1;
    }
  }

  lemma InsertKeeps(d: D, t: TimerId, next: nat, command: nat)
    requires Valid(d) && !Listed(d, t) && t in d.timers && next < EPOCH
    ensures Valid(InsertTimer(d, t, next, command)) && Others(d, InsertTimer(d, t, next, command), t)
    ensures var d' := InsertTimer(d, t, next, command);
            && d'.queue == d.queue && d'.calls == d.calls
            && if Late(next, d.last, command, TimerOf(d.timers, t).period) then !Listed(d', t)
               else Listed(d', t) && Expiry(d', t) == (if next <= d.last then d.epochs + 1 else d.epochs) * EPOCH + next
  {
    ValueMove(d.value, t, next);
    Aside(d.current, t, d.value, next, d.timers);
    Aside(d.overflow, t, d.value, next, d.timers);
    InsertInto(d.current, t, d.value, next, d.timers);
    InsertInto(d.overflow, t, d.value, next, d.timers);
    OnceInsertion(d.current, d.overflow, t, d.value[t := next]);
  }

  /** A timer inserted for a command less than 2^32 ticks ago is late exactly when its expiry time has
      come, and is listed for exactly that time otherwise. */
  lemma InsertIsExact(d: D, d': D, t: TimerId, at: nat, next: nat, command: nat)
    requires Valid(d) && !Listed(d, t) && t in d.timers && at <= Now(d) < at + EPOCH
    requires command == Wrap(at) && next == Wrap(command + TimerOf(d.timers, t).period)
    requires d' == InsertTimer(d, t, next, command)
    ensures var due := at + TimerOf(d.timers, t).period;
            && (Late(next, d.last, command, TimerOf(d.timers, t).period) <==> Now(d) >= due)
            && (Now(d) < due ==> Listed(d', t) && Expiry(d', t) == due)
            && (Now(d) >= due ==> !Listed(d', t))
  {
    NowParts(d);
    ExactTimes(Now(d), d.last, d.epochs, at, command, TimerOf(d.timers, t).period, next);
    InsertKeeps(d, t, next, command);
  }

  lemma ExactTimes(now: nat, last: nat, epochs: nat, at: nat, command: nat, p: nat, next: nat)
    requires at <= now < at + EPOCH && 0 < p < EPOCH && last == now % EPOCH && epochs == now / EPOCH
    requires command == Wrap(at) && next == Wrap(command + p)
    ensures next < EPOCH && (Late(next, last, command, p) <==> now >= at + p)
    ensures now < at + p ==> (if next <= last then epochs + 1 else epochs) * EPOCH + next == at + p
  {
    LateRightIff(now, at, p);
    WrapTwice(at, p);
    if now < at + p {
      ListOfEpoch(now, at + p);
      EpochParts(at + p);
    }
  }

  lemma WrapTwice(a: nat, p: nat)
    ensures Wrap(Wrap(a) + p) == Wrap(a + p) == (a + p) % EPOCH
  {
  }

  lemma EpochParts(n: nat)
    ensures n == n / EPOCH * EPOCH + n % EPOCH
  {
  }

  lemma NowParts(d: D)
    requires d.last < EPOCH
    ensures Now(d) % EPOCH == d.last && Now(d) / EPOCH == d.epochs
  {
  }
}
