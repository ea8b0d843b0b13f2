/**
  Runs of the timer daemon (FreeRTOS/Source/timers.c): an auto-reload timer gets one callback for each of
  its expiry times, in order and never early, through every path by which it is reloaded.
*/
module Timers {
  import opened TaskLists
  import opened TickTime
  import opened TimerLists

  // ---------- switching the lists ----------

  /** What is left of the epoch for all timers in a list: the measure of the loop that drains it. */
  function Left(s: seq<TimerId>, value: map<TimerId, nat>): nat {
    if s == [] then 0
    else (if ValueOf(value, s[0]) < EPOCH then EPOCH - ValueOf(value, s[0]) else 0) + Left(s[1..], value)
  }

  lemma {:induction false} LeftElsewhere(s: seq<TimerId>, value: map<TimerId, nat>, t: TimerId, v: nat)
    requires t !in s
    ensures Left(s, value[t := v]) == Left(s, value)
  {
    if s != [] {
      LeftElsewhere(s[1..], value, t, v);
    }
  }

  lemma {:induction false} LeftInsertion(s: seq<TimerId>, t: TimerId, value: map<TimerId, nat>)
    requires ValueOf(value, t) < EPOCH
    ensures Left(Insertion(s, t, value), value) == Left(s, value) + EPOCH - ValueOf(value, t)
  {
    if s != [] && ValueOf(value, t) >= ValueOf(value, s[0]) {
      LeftInsertion(s[1..], t, value);
      assert Insertion(s, t, value)[1..] == Insertion(s[1..], t, value);
    } else {
      assert ([t] + s)[1..] == s;
    }
  }

  /** Taking the head off the current list */
  lemma PopKeeps(d: D, t: TimerId, d1: D)
    requires Valid(d) && d.current != [] && t == d.current[0] && d1 == d.(current := d.current[1..])
    ensures Valid(d1) && Others(d, d1, t) && !Listed(d1, t) && t in d.timers && ValueOf(d.value, t) < EPOCH
  {
    OnceRest(d.current, d.overflow);
  }

  lemma RelistKeeps(d: D, t: TimerId, v: nat, d1: D)
    requires Valid(d) && !Listed(d, t) && t in d.timers && v < EPOCH
    requires d1 == d.(value := d.value[t := v], current := Insertion(d.current, t, d.value[t := v]))
    ensures Valid(d1) && Others(d, d1, t) && t in d1.current && ValueOf(d1.value, t) == v
    ensures Left(d1.current, d1.value) == Left(d.current, d.value) + EPOCH - v
  {
    ValueMove(d.value, t, v);
    Aside(d.overflow, t, d.value, v, d.timers);
    InsertInto(d.current, t, d.value, v, d.timers);
    OnceInsertion(d.current, d.overflow, t, d.value[t := v]);
    LeftElsewhere(d.current, d.value, t, v);
    LeftInsertion(d.current, t, d.value[t := v]);
  }

  /** Is the next expiry of the first timer in the epoch that ends? */
  predicate AgainInEpoch(d: D)
    requires d.current != []
  {
    var t := d.current[0];
    TimerOf(d.timers, t).autoReload && Wrap(ValueOf(d.value, t) + TimerOf(d.timers, t).period) > ValueOf(d.value, t)
  }

  /** The lists after a round */
  lemma DrainOneLists(d: D, t: TimerId, v: nat)
    requires d.current != [] && t == d.current[0] && v == Wrap(ValueOf(d.value, t) + TimerOf(d.timers, t).period)
    ensures var d', value' := DrainOne(d), if AgainInEpoch(d) then d.value[t := v] else d.value;
            var rest := d.current[1..];
            d' == d.(current := if AgainInEpoch(d) then Insertion(rest, t, value') else rest, value := value',
                     queue := d'.queue, calls := d.calls + [Call(t, Expiry(d, t))])
  {
  }

  /** Calls and messages play no part in the order of the lists. */
  lemma SameLists(d: D, d': D, e: D, t: TimerId)
    requires Valid(d') && Others(d, d', t) && e == d'.(queue := e.queue, calls := e.calls)
    ensures Valid(e) && Others(d, e, t)
  {
  }

  lemma DrainOneKeeps(d: D, t: TimerId)
    requires Valid(d) && d.current != [] && t == d.current[0]
    ensures var d' := DrainOne(d);
            && Valid(d') && Others(d, d', t)
            && Left(d'.current, d'.value) < Left(d.current, d.value)
            && (t in d'.current <==> AgainInEpoch(d)) && t !in d'.overflow
            && (AgainInEpoch(d) ==> ValueOf(d'.value, t) == Wrap(ValueOf(d.value, t) + TimerOf(d.timers, t).period))
  {
    var v := Wrap(ValueOf(d.value, t) + TimerOf(d.timers, t).period);
    var d0 := d.(current := d.current[1..]);
    PopKeeps(d, t, d0);
    DrainOneLists(d, t, v);
    if AgainInEpoch(d) {
      var d1 := d0.(value := d0.value[t := v], current := Insertion(d0.current, t, d0.value[t := v]));
      RelistKeeps(d0, t, v, d1);
      SameLists(d, d1, DrainOne(d), t);
    } else {
      SameLists(d, d0, DrainOne(d), t);
    }
  }

  /** prvSwitchTimerLists */
  function SwitchLists(d: D): D
    requires Valid(d)
    decreases Left(d.current, d.value)
  {
    if d.current == [] then d.(current := d.overflow, overflow := [], epochs := d.epochs + 1)
    else
      DrainOneKeeps(d, d.current[0]);
      SwitchLists(DrainOne(d))
  }

  /** prvSampleTimeNow at unbounded time `now` */
  function Sample(d: D, now: nat): D
    requires Valid(d)
  {
    (if now % EPOCH < d.last then SwitchLists(d) else d).(last := now % EPOCH)
  }

  // ---------- commands ----------

  /** What prvProcessReceivedCommands does for one message once it has the time */
  function Obey(d: D, m: Message): D {
    var t, p := m.timer, TimerOf(d.timers, m.timer).period;
    match m.command
    case Stop => d
    case ChangePeriod =>
      InsertTimer(d.(timers := d.timers[t := TimerOf(d.timers, t).(period := m.value)]), t, Wrap(d.last + m.value), d.last)
    case Start =>
      var next := Wrap(m.value + p);
      var d1 := InsertTimer(d, t, next, m.value);
      if !Late(next, d.last, m.value, p) then d1
      else
        var d2 := Fire(d1, t, m.at + p);
        if TimerOf(d.timers, t).autoReload then Restart(d2, t, next, m.at + p) else d2
  }

  /** One round of the loop of prvProcessReceivedCommands.  A message for an unknown timer is dropped. */
  function Receive(d: D, now: nat): D
    requires Valid(d) && d.queue != []
  {
    var m := d.queue[0];
    var d1 := d.(queue := d.queue[1..]);
    if m.timer !in d.timers then d1
    else
      UnlistKeeps(d1, m.timer);
      Obey(Sample(Unlist(d1, m.timer), now), m)
  }

  lemma UnlistKeeps(d: D, t: TimerId)
    requires Valid(d)
    ensures Valid(Unlist(d, t)) && !Listed(Unlist(d, t), t) && Others(d, Unlist(d, t), t)
  {
    WithoutRemoves(d.current, d.overflow, t);
    WithoutRemoves(d.overflow, d.current, t);
    WithoutSorted(d.current, t, d.value);
    WithoutSorted(d.overflow, t, d.value);
    forall u: TimerId
      ensures multiset(Without(d.current, t))[u] + multiset(Without(d.overflow, t))[u] <= 1
    {
      assert multiset(d.current)[u] + multiset(d.overflow)[u] <= 1;
      WithoutCount(d.current, t, u);
      WithoutCount(d.overflow, t, u);
    }
  }

  lemma WithoutRemoves(s: seq<TimerId>, o: seq<TimerId>, t: TimerId)
    requires forall u: TimerId :: multiset(s)[u] + multiset(o)[u] <= 1
    ensures forall u :: u in Without(s, t) <==> u in s && u != t
  {
    forall u: TimerId
      ensures u in Without(s, t) <==> u in s && u != t
    {
      assert multiset(s)[u] + multiset(o)[u] <= 1;
      assert multiset(s)[t] + multiset(o)[t] <= 1;
      WithoutCount(s, t, u);
      InSequence(s, u);
      InSequence(Without(s, t), u);
    }
  }

  /** prvGetNextExpireTime followed by prvProcessTimerOrBlockTask */
  function ProcessTimers(d: D, now: nat): D
    requires Valid(d)
  {
    var d1 := Sample(d, now);
    if now % EPOCH < d.last then d1
    else if d.current != [] && ValueOf(d.value, d.current[0]) <= d1.last then ProcessExpired(d1)
    else d1
  }

  // ---------- the calls and messages of one timer ----------

  function CallsFor(calls: seq<Call>, t: TimerId): seq<nat> {
    if calls == [] then []
    else (if calls[0].timer == t then [calls[0].due] else []) + CallsFor(calls[1..], t)
  }

  function MessagesFor(queue: seq<Message>, t: TimerId): seq<Message> {
    if queue == [] then []
    else (if queue[0].timer == t then [queue[0]] else []) + MessagesFor(queue[1..], t)
  }

  lemma {:induction false} CallsAppend(calls: seq<Call>, c: Call, t: TimerId)
    ensures CallsFor(calls + [c], t) == CallsFor(calls, t) + if c.timer == t then [c.due] else []
  {
    if calls != [] {
      assert (calls + [c])[1..] == calls[1..] + [c];
      CallsAppend(calls[1..], c, t);
    }
  }

  lemma {:induction false} MessagesAppend(queue: seq<Message>, m: Message, t: TimerId)
    ensures MessagesFor(queue + [m], t) == MessagesFor(queue, t) + if m.timer == t then [m] else []
  {
    if queue != [] {
      assert (queue + [m])[1..] == queue[1..] + [m];
      MessagesAppend(queue[1..], m, t);
    }
  }

  /** Each callback came for a time `p` after that of the one before it, the first one for c + p. */
  ghost predicate Regular(fired: seq<nat>, c: nat, p: nat) {
    fired == [] ||
    var before := fired[..|fired| - 1];
    Regular(before, c, p) && fired[|fired| - 1] == Latest(before, c) + p
  }

  function Latest(fired: seq<nat>, c: nat): nat {
    if fired == [] then c else fired[|fired| - 1]
  }

  lemma {:induction false} RegularTimes(fired: seq<nat>, c: nat, p: nat, i: nat)
    requires Regular(fired, c, p) && i < |fired|
    ensures fired[i] == c + (i + 1) * p && fired[i] <= Latest(fired, c)
  {
    LatestTime(fired, c, p);
    if i < |fired| - 1 {
      RegularTimes(fired[..|fired| - 1], c, p, i);
    }
  }

  lemma {:induction false} LatestTime(fired: seq<nat>, c: nat, p: nat)
    requires Regular(fired, c, p)
    ensures Latest(fired, c) == c + |fired| * p
  {
    if fired != [] {
      LatestTime(fired[..|fired| - 1], c, p);
      OneMorePeriod(|fired| - 1, p);
    }
  }

  lemma OneMorePeriod(n: nat, p: nat)
    ensures (n + 1) * p == n * p + p
  {
  }

  /** The callbacks of timer `t` of period `p` so far are regular and not later than `limit`; it waits in a
      list for the next expiry, or one start command continues the series. */
  ghost predicate Series(t: TimerId, p: nat, c: nat, limit: nat,
                         fired: seq<nat>, messages: seq<Message>, listed: bool, expiry: nat)
  {
    var r := Latest(fired, c);
    && Regular(fired, c, p)
    && (fired != [] ==> r <= limit)
    && if listed then messages == [] && expiry == r + p
       else messages == [Message(Start, t, Wrap(r), r)]
  }

  /** Where a series begins: the time of the start command, and the timer's callbacks before it */
  datatype Origin = Origin(at: nat, earlier: seq<nat>)

  /** The callbacks of timer `t` since then */
  ghost function Fired(d: D, t: TimerId, c: Origin): seq<nat> {
    if c.earlier <= CallsFor(d.calls, t) then CallsFor(d.calls, t)[|c.earlier|..] else []
  }

  /** Auto-reload timer `t`, started at `c`, is in its series.  The start command that continues it is in the
      queue or in the daemon's hand. */
  ghost predicate Phase(d: D, hand: seq<Message>, t: TimerId, c: Origin, limit: nat) {
    && t in d.timers && TimerOf(d.timers, t).autoReload && c.earlier <= CallsFor(d.calls, t)
    && Series(t, TimerOf(d.timers, t).period, c.at, limit, Fired(d, t, c),
              MessagesFor(hand, t) + MessagesFor(d.queue, t), Listed(d, t), Expiry(d, t))
  }

  /** Steps that concern another timer leave the phase of this one alone. */
  lemma PhaseElsewhere(d: D, d': D, hand: seq<Message>, t: TimerId, u: TimerId, c: Origin, limit: nat)
    requires Phase(d, hand, t, c, limit) && Others(d, d', u) && t != u
    requires CallsFor(d'.calls, t) == CallsFor(d.calls, t) && MessagesFor(d'.queue, t) == MessagesFor(d.queue, t)
    ensures Phase(d', hand, t, c, limit)
  {
  }

  lemma RegularNext(fired: seq<nat>, c: nat, p: nat)
    requires Regular(fired, c, p)
    ensures Regular(fired + [Latest(fired, c) + p], c, p)
  {
    var f := fired + [Latest(fired, c) + p];
    assert f[..|f| - 1] == fired;
  }

  /** After a callback for the next expiry the series goes on, in a list or by a start command. */
  lemma SeriesNext(t: TimerId, p: nat, c: nat, limit: nat, fired: seq<nat>, messages: seq<Message>, listed: bool,
                   expiry: nat, due: nat)
    requires Regular(fired, c, p) && due == Latest(fired, c) + p <= limit
    requires if listed then messages == [] && expiry == due + p else messages == [Message(Start, t, Wrap(due), due)]
    ensures Series(t, p, c, limit, fired + [due], messages, listed, expiry)
  {
    RegularNext(fired, c, p);
  }

  lemma PhaseNext(d: D, d': D, t: TimerId, c: Origin, limit: nat, due: nat)
    requires t in d'.timers && d'.timers == d.timers && TimerOf(d.timers, t).autoReload
    requires c.earlier <= CallsFor(d.calls, t) && Regular(Fired(d, t, c), c.at, TimerOf(d.timers, t).period)
    requires due == Latest(Fired(d, t, c), c.at) + TimerOf(d.timers, t).period <= limit
    requires d'.calls == d.calls + [Call(t, due)]
    requires if Listed(d', t) then MessagesFor(d'.queue, t) == [] && Expiry(d', t) == due + TimerOf(d.timers, t).period
             else MessagesFor(d'.queue, t) == [Message(Start, t, Wrap(due), due)]
    ensures Phase(d', [], t, c, limit)
  {
    CallsAppend(d.calls, Call(t, due), t);
    assert Fired(d', t, c) == Fired(d, t, c) + [due];
    assert MessagesFor([], t) + MessagesFor(d'.queue, t) == MessagesFor(d'.queue, t);
    SeriesNext(t, TimerOf(d.timers, t).period, c.at, limit, Fired(d, t, c), MessagesFor(d'.queue, t),
               Listed(d', t), Expiry(d', t), due);
  }

  /** Nothing in hand makes no difference to a listed timer. */
  lemma HandOfListed(d: D, hand: seq<Message>, t: TimerId, c: Origin, limit: nat)
    requires MessagesFor(hand, t) == []
    ensures Phase(d, hand, t, c, limit) <==> Phase(d, [], t, c, limit)
  {
    assert MessagesFor(hand, t) + MessagesFor(d.queue, t) == MessagesFor([], t) + MessagesFor(d.queue, t);
  }

  // ---------- the switch of the lists ----------

  lemma DrainOneQueue(d: D, t: TimerId, u: TimerId)
    requires d.current != [] && u == d.current[0]
    ensures MessagesFor(DrainOne(d).queue, t) ==
            MessagesFor(d.queue, t) + if t == u && TimerOf(d.timers, u).autoReload && !AgainInEpoch(d)
                                      then [Message(Start, u, ValueOf(d.value, u), Expiry(d, u))] else []
    ensures CallsFor(DrainOne(d).calls, t) == CallsFor(d.calls, t) + if t == u then [Expiry(d, u)] else []
  {
    MessagesAppend(d.queue, Message(Start, u, ValueOf(d.value, u), Expiry(d, u)), t);
    CallsAppend(d.calls, Call(u, Expiry(d, u)), t);
  }

  /** A round for an auto-reload timer: its next expiry is in this epoch, or it is restarted. */
  lemma DrainOutcome(d: D, d': D, t: TimerId, due: nat)
    requires Valid(d) && d.current != [] && t == d.current[0] && TimerOf(d.timers, t).autoReload
    requires due == Expiry(d, t) && d' == DrainOne(d)
    ensures d'.calls == d.calls + [Call(t, due)] && d'.timers == d.timers && due <= (d.epochs + 1) * EPOCH
    ensures if AgainInEpoch(d)
            then Listed(d', t) && d'.queue == d.queue && Expiry(d', t) == due + TimerOf(d.timers, t).period
            else !Listed(d', t) && d'.queue == d.queue + [Message(Start, t, Wrap(due), due)]
  {
    var v, p := ValueOf(d.value, t), TimerOf(d.timers, t).period;
    DrainOneKeeps(d, t);
    DrainOneLists(d, t, Wrap(ValueOf(d.value, t) + TimerOf(d.timers, t).period));
    WrapParts(d.epochs, v);
    if AgainInEpoch(d) {
      SameEpochReload(v, p);
    }
  }

  lemma DrainOwn(d: D, d': D, hand: seq<Message>, t: TimerId, c: Origin, due: nat)
    requires Valid(d) && d.current != [] && t == d.current[0] && due == Expiry(d, t)
    requires Phase(d, hand, t, c, (d.epochs + 1) * EPOCH) && d' == DrainOne(d)
    ensures Phase(d', hand, t, c, (d.epochs + 1) * EPOCH)
  {
    DrainOutcome(d, d', t, due);
    MessagesAppend(d.queue, Message(Start, t, Wrap(due), due), t);
    PhaseNext(d, d', t, c, (d.epochs + 1) * EPOCH, due);
    HandOfListed(d', hand, t, c, (d.epochs + 1) * EPOCH);
  }

  lemma DrainOnePhase(d: D, hand: seq<Message>, t: TimerId, c: Origin)
    requires Valid(d) && d.current != [] && Phase(d, hand, t, c, (d.epochs + 1) * EPOCH)
    ensures Phase(DrainOne(d), hand, t, c, (d.epochs + 1) * EPOCH)
  {
    var u := d.current[0];
    if t != u {
      DrainOneKeeps(d, u);
      DrainOneQueue(d, t, u);
      PhaseElsewhere(d, DrainOne(d), hand, t, u, c, (d.epochs + 1) * EPOCH);
    } else {
      DrainOwn(d, DrainOne(d), hand, t, c, Expiry(d, t));
    }
  }

  lemma WrapParts(epochs: nat, v: nat)
    requires v < EPOCH
    ensures Wrap(epochs * EPOCH + v) == v
  {
  }

  lemma SameEpochReload(v: nat, p: nat)
    requires v < EPOCH && p < EPOCH && Wrap(v + p) > v
    ensures Wrap(v + p) == v + p
  {
  }

  /** prvSwitchTimerLists ends, leaves the lists in order, and takes no more than the calls that were due
      in the epoch that ended. */
  lemma {:induction false} SwitchKeeps(d: D)
    requires Valid(d)
    ensures Valid(SwitchLists(d)) && SwitchLists(d).epochs == d.epochs + 1
    decreases Left(d.current, d.value)
  {
    if d.current != [] {
      DrainOneKeeps(d, d.current[0]);
      SwitchKeeps(DrainOne(d));
    }
  }

  lemma {:induction false} SwitchPhase(d: D, hand: seq<Message>, t: TimerId, c: Origin)
    requires Valid(d) && Phase(d, hand, t, c, (d.epochs + 1) * EPOCH)
    ensures Phase(SwitchLists(d), hand, t, c, (d.epochs + 1) * EPOCH)
    decreases Left(d.current, d.value)
  {
    if d.current == [] {
      var d' := SwitchLists(d);
      assert Listed(d, t) == Listed(d', t) && (Listed(d, t) ==> Expiry(d', t) == Expiry(d, t));
    } else {
      DrainOneKeeps(d, d.current[0]);
      DrainOnePhase(d, hand, t, c);
      SwitchPhase(DrainOne(d), hand, t, c);
    }
  }

  /** The unbounded time of a sample is right whenever less than 2^32 ticks passed since the last one. */
  lemma SampleTime(d: D, now: nat)
    requires Valid(d) && Now(d) <= now < Now(d) + EPOCH
    ensures Valid(Sample(d, now)) && Now(Sample(d, now)) == now
    ensures now % EPOCH < d.last ==> (d.epochs + 1) * EPOCH <= now
  {
    NowParts(d);
    Difference(Now(d), now);
    if now % EPOCH < d.last {
      SwitchKeeps(d);
    }
  }

  lemma PhaseLimit(d: D, hand: seq<Message>, t: TimerId, c: Origin, limit: nat, limit': nat)
    requires Phase(d, hand, t, c, limit) && limit <= limit'
    ensures Phase(d, hand, t, c, limit')
  {
  }

  lemma PhaseSampled(d: D, hand: seq<Message>, t: TimerId, c: Origin, limit: nat, last: nat)
    requires Phase(d, hand, t, c, limit)
    ensures Phase(d.(last := last), hand, t, c, limit)
  {
  }

  lemma SamplePhase(d: D, hand: seq<Message>, t: TimerId, c: Origin, now: nat)
    requires Valid(d) && Now(d) <= now < Now(d) + EPOCH && Phase(d, hand, t, c, Now(d))
    ensures Phase(Sample(d, now), hand, t, c, now)
  {
    SampleTime(d, now);
    if now % EPOCH < d.last {
      PhaseLimit(d, hand, t, c, Now(d), (d.epochs + 1) * EPOCH);
      SwitchPhase(d, hand, t, c);
      PhaseLimit(SwitchLists(d), hand, t, c, (d.epochs + 1) * EPOCH, now);
      PhaseSampled(SwitchLists(d), hand, t, c, now, now % EPOCH);
    } else {
      PhaseLimit(d, hand, t, c, Now(d), now);
      PhaseSampled(d, hand, t, c, now, now % EPOCH);
    }
  }

  // ---------- an expired timer ----------

  lemma ExpiredParts(d: D, u: TimerId, d1: D, next: nat)
    requires Valid(d) && d.current != [] && u == d.current[0] && d1 == d.(current := d.current[1..])
    requires next == Wrap(ValueOf(d.value, u) + TimerOf(d.timers, u).period)
    ensures var v, p := ValueOf(d.value, u), TimerOf(d.timers, u).period;
            var d2 := if !TimerOf(d.timers, u).autoReload then d1
                      else if Late(next, d.last, v, p) then Restart(InsertTimer(d1, u, next, v), u, v, Expiry(d, u))
                      else InsertTimer(d1, u, next, v);
            ProcessExpired(d) == Fire(d2, u, Expiry(d, u))
  {
  }

  lemma ExpiredKeeps(d: D)
    requires Valid(d) && d.current != []
    ensures Valid(ProcessExpired(d)) && Others(d, ProcessExpired(d), d.current[0])
    ensures ProcessExpired(d).epochs == d.epochs && ProcessExpired(d).last == d.last
  {
    var u := d.current[0];
    var d1 := d.(current := d.current[1..]);
    var v := ValueOf(d.value, u);
    var next := Wrap(v + TimerOf(d.timers, u).period);
    PopKeeps(d, u, d1);
    ExpiredParts(d, u, d1, next);
    if TimerOf(d.timers, u).autoReload {
      var d2 := InsertTimer(d1, u, next, v);
      InsertKeeps(d1, u, next, v);
      SameLists(d1, d2, ProcessExpired(d), u);
    } else {
      SameLists(d, d1, ProcessExpired(d), u);
    }
  }

  lemma ExpiredQueue(d: D, t: TimerId, u: TimerId)
    requires Valid(d) && d.current != [] && u == d.current[0]
    ensures CallsFor(ProcessExpired(d).calls, t) == CallsFor(d.calls, t) + if t == u then [Expiry(d, u)] else []
    ensures t != u ==> MessagesFor(ProcessExpired(d).queue, t) == MessagesFor(d.queue, t)
  {
    var v := ValueOf(d.value, u);
    ExpiredAppends(d, u, d.(current := d.current[1..]), Wrap(v + TimerOf(d.timers, u).period));
    MessagesAppend(d.queue, Message(Start, u, v, Expiry(d, u)), t);
    CallsAppend(d.calls, Call(u, Expiry(d, u)), t);
  }

  lemma ExpiredAppends(d: D, u: TimerId, d1: D, next: nat)
    requires Valid(d) && d.current != [] && u == d.current[0] && d1 == d.(current := d.current[1..])
    requires next == Wrap(ValueOf(d.value, u) + TimerOf(d.timers, u).period)
    ensures var d' := ProcessExpired(d);
            && d'.calls == d.calls + [Call(u, Expiry(d, u))]
            && (d'.queue == d.queue || d'.queue == d.queue + [Message(Start, u, ValueOf(d.value, u), Expiry(d, u))])
  {
    ExpiredParts(d, u, d1, next);
    InsertQueue(d1, u, next, ValueOf(d.value, u));
  }

  lemma InsertQueue(d: D, t: TimerId, next: nat, command: nat)
    ensures var d' := InsertTimer(d, t, next, command);
            d' == d.(value := d'.value, current := d'.current, overflow := d'.overflow)
  {
  }

  /** Whether the next expiry is late or not, the code goes by the unbounded times. */
  lemma ExpiredOutcome(d: D, d': D, t: TimerId, due: nat)
    requires Valid(d) && d.current != [] && t == d.current[0] && TimerOf(d.timers, t).autoReload
    requires due == Expiry(d, t) <= Now(d) && d' == ProcessExpired(d)
    ensures var next := due + TimerOf(d.timers, t).period;
            && d'.calls == d.calls + [Call(t, due)] && d'.timers == d.timers
            && (Now(d) >= next ==> !Listed(d', t) && d'.queue == d.queue + [Message(Start, t, Wrap(due), due)])
            && (Now(d) < next ==> Listed(d', t) && d'.queue == d.queue && Expiry(d', t) == next)
  {
    var v := ValueOf(d.value, t);
    var d1 := d.(current := d.current[1..]);
    var next := Wrap(v + TimerOf(d.timers, t).period);
    PopKeeps(d, t, d1);
    WrapParts(d.epochs, v);
    ExpiredParts(d, t, d1, next);
    InsertIsExact(d1, InsertTimer(d1, t, next, v), t, due, next, v);
    InsertKeeps(d1, t, next, v);
  }

  /** The same for every timer: one that does not reload stops. */
  lemma ExpiredResult(d: D, d': D, t: TimerId, due: nat)
    requires Valid(d) && d.current != [] && t == d.current[0] && ValueOf(d.value, t) <= d.last
    requires due == Expiry(d, t) && d' == ProcessExpired(d)
    ensures d'.calls == d.calls + [Call(t, due)] && d'.timers == d.timers
    ensures if !TimerOf(d.timers, t).autoReload then !Listed(d', t) && d'.queue == d.queue
            else if Now(d) < due + TimerOf(d.timers, t).period
            then Listed(d', t) && d'.queue == d.queue && Expiry(d', t) == due + TimerOf(d.timers, t).period
            else !Listed(d', t) && d'.queue == d.queue + [Message(Start, t, Wrap(due), due)]
  {
    if TimerOf(d.timers, t).autoReload {
      ExpiredOutcome(d, d', t, due);
    } else {
      PopKeeps(d, t, d.(current := d.current[1..]));
      ExpiredParts(d, t, d.(current := d.current[1..]), Wrap(ValueOf(d.value, t) + TimerOf(d.timers, t).period));
    }
  }

  lemma ExpiredOwn(d: D, d': D, t: TimerId, c: Origin, due: nat)
    requires Valid(d) && d.current != [] && t == d.current[0] && due == Expiry(d, t) <= Now(d)
    requires Phase(d, [], t, c, Now(d)) && d' == ProcessExpired(d)
    ensures Phase(d', [], t, c, Now(d))
  {
    assert MessagesFor([], t) + MessagesFor(d.queue, t) == MessagesFor(d.queue, t);
    assert MessagesFor(d.queue, t) == [];
    ExpiredOutcome(d, d', t, due);
    MessagesAppend(d.queue, Message(Start, t, Wrap(due), due), t);
    PhaseNext(d, d', t, c, Now(d), due);
  }

  lemma ExpiredPhase(d: D, t: TimerId, c: Origin)
    requires Valid(d) && d.current != [] && ValueOf(d.value, d.current[0]) <= d.last && Phase(d, [], t, c, Now(d))
    ensures Phase(ProcessExpired(d), [], t, c, Now(d))
  {
    var u := d.current[0];
    if t != u {
      ExpiredKeeps(d);
      ExpiredQueue(d, t, u);
      PhaseElsewhere(d, ProcessExpired(d), [], t, u, c, Now(d));
    } else {
      ExpiredOwn(d, ProcessExpired(d), t, c, Expiry(d, t));
    }
  }

  lemma ProcessKeeps(d: D, now: nat)
    requires Valid(d) && Now(d) <= now < Now(d) + EPOCH
    ensures Valid(ProcessTimers(d, now)) && Now(ProcessTimers(d, now)) == now
  {
    SampleTime(d, now);
    var d1 := Sample(d, now);
    if now % EPOCH >= d.last && d.current != [] && ValueOf(d.value, d.current[0]) <= d1.last {
      ExpiredKeeps(d1);
    }
  }

  /** One round over the timer lists keeps every running auto-reload timer in its series. */
  lemma ProcessPhase(d: D, t: TimerId, c: Origin, now: nat)
    requires Valid(d) && Now(d) <= now < Now(d) + EPOCH && Phase(d, [], t, c, Now(d))
    ensures Phase(ProcessTimers(d, now), [], t, c, now)
  {
    SampleTime(d, now);
    SamplePhase(d, [], t, c, now);
    var d1 := Sample(d, now);
    if now % EPOCH >= d.last && d.current != [] && ValueOf(d.value, d.current[0]) <= d1.last {
      ExpiredPhase(d1, t, c);
    }
  }

  // ---------- a command ----------

  lemma ObeyKeeps(d: D, m: Message)
    requires Valid(d) && m.timer in d.timers && !Listed(d, m.timer)
    requires m.command == ChangePeriod ==> 0 < m.value < EPOCH
    ensures Valid(Obey(d, m)) && Others(d, Obey(d, m), m.timer)
  {
    match m.command
    case Stop =>
      assert Obey(d, m) == d;
    case ChangePeriod => ChangeKeeps(d, m, m.timer);
    case Start => StartKeeps(d, m, m.timer);
  }

  lemma ChangeKeeps(d: D, m: Message, t: TimerId)
    requires Valid(d) && t == m.timer && t in d.timers && !Listed(d, t)
    requires m.command == ChangePeriod && 0 < m.value < EPOCH
    ensures Valid(Obey(d, m)) && Others(d, Obey(d, m), t)
  {
    var d1 := d.(timers := d.timers[t := TimerOf(d.timers, t).(period := m.value)]);
    var d2 := InsertTimer(d1, t, Wrap(d.last + m.value), d.last);
    assert Obey(d, m) == d2;
    PeriodKeeps(d, t, m.value, d1);
    InsertKeeps(d1, t, Wrap(d.last + m.value), d.last);
    OthersTwice(d, d1, d2, t);
  }

  lemma OthersTwice(d: D, d1: D, d2: D, t: TimerId)
    requires Others(d, d1, t) && Others(d1, d2, t)
    ensures Others(d, d2, t)
  {
  }

  lemma StartKeeps(d: D, m: Message, t: TimerId)
    requires Valid(d) && t == m.timer && t in d.timers && !Listed(d, t) && m.command == Start
    ensures Valid(Obey(d, m)) && Others(d, Obey(d, m), t)
  {
    var next := Wrap(m.value + TimerOf(d.timers, m.timer).period);
    var d1 := InsertTimer(d, t, next, m.value);
    InsertKeeps(d, t, next, m.value);
    StartLists(d, m, Obey(d, m), d1);
    SameLists(d, d1, Obey(d, m), t);
  }

  lemma StartLists(d: D, m: Message, d': D, d1: D)
    requires m.command == Start && d' == Obey(d, m)
    requires d1 == InsertTimer(d, m.timer, Wrap(m.value + TimerOf(d.timers, m.timer).period), m.value)
    ensures d' == d1.(queue := d'.queue, calls := d'.calls)
  {
  }

  lemma PeriodKeeps(d: D, t: TimerId, p: nat, d1: D)
    requires Valid(d) && t in d.timers && 0 < p < EPOCH
    requires d1 == d.(timers := d.timers[t := TimerOf(d.timers, t).(period := p)])
    ensures Valid(d1) && Others(d, d1, t)
  {
    forall u | u != t
      ensures TimerOf(d1.timers, u) == TimerOf(d.timers, u)
    {
    }
  }

  lemma ObeyQueue(d: D, m: Message, t: TimerId)
    requires m.timer != t
    ensures CallsFor(Obey(d, m).calls, t) == CallsFor(d.calls, t)
    ensures MessagesFor(Obey(d, m).queue, t) == MessagesFor(d.queue, t)
  {
    var p := TimerOf(d.timers, m.timer).period;
    CallsAppend(d.calls, Call(m.timer, m.at + p), t);
    MessagesAppend(d.queue, Message(Start, m.timer, Wrap(m.value + p), m.at + p), t);
  }

  /** The start command that continues a series, less than 2^32 ticks later */
  lemma ObeyOutcome(d: D, d': D, m: Message, t: TimerId)
    requires Valid(d) && t in d.timers && TimerOf(d.timers, t).autoReload && !Listed(d, t)
    requires m == Message(Start, t, Wrap(m.at), m.at) && m.at <= Now(d) < m.at + EPOCH && d' == Obey(d, m)
    ensures var next := m.at + TimerOf(d.timers, t).period;
            && d'.timers == d.timers
            && (Now(d) >= next ==>
                  && !Listed(d', t) && d'.calls == d.calls + [Call(t, next)]
                  && d'.queue == d.queue + [Message(Start, t, Wrap(next), next)])
            && (Now(d) < next ==>
                  Listed(d', t) && d'.calls == d.calls && d'.queue == d.queue && Expiry(d', t) == next)
  {
    var p := TimerOf(d.timers, t).period;
    var next := Wrap(m.value + p);
    var d1 := InsertTimer(d, t, next, m.value);
    InsertIsExact(d, d1, t, m.at, next, m.value);
    InsertQueue(d, t, next, m.value);
    WrapTwice(m.at, p);
    StartParts(d, m, p, next, d1);
    if Now(d) >= m.at + p {
      SameListing(d1, d', t);
    }
  }

  /** What a start command does to an auto-reload timer */
  lemma StartParts(d: D, m: Message, p: nat, next: nat, d1: D)
    requires m.command == Start && TimerOf(d.timers, m.timer).autoReload && p == TimerOf(d.timers, m.timer).period
    requires next == Wrap(m.value + p) && d1 == InsertTimer(d, m.timer, next, m.value) && d1.timers == d.timers
    ensures Obey(d, m) == if !Late(next, d.last, m.value, p) then d1
                          else d1.(calls := d1.calls + [Call(m.timer, m.at + p)],
                                   queue := d1.queue + [Message(Start, m.timer, next, m.at + p)])
  {
  }

  lemma SameListing(d: D, d': D, t: TimerId)
    requires d' == d.(calls := d'.calls, queue := d'.queue)
    ensures Listed(d', t) <==> Listed(d, t)
  {
  }

  /** A message for a running timer is the one that continues its series. */
  lemma OwnMessage(d: D, m: Message, t: TimerId, c: Origin, limit: nat)
    requires Phase(d, [m], t, c, limit) && m.timer == t && !Listed(d, t)
    ensures m == Message(Start, t, Wrap(m.at), m.at) && m.at == Latest(Fired(d, t, c), c.at)
    ensures MessagesFor(d.queue, t) == []
  {
    assert MessagesFor([m], t) == [m];
    assert ([m] + MessagesFor(d.queue, t))[0] == m;
  }

  lemma StartedAgain(d: D, d': D, t: TimerId, c: Origin, next: nat)
    requires t in d.timers && TimerOf(d.timers, t).autoReload && c.earlier <= CallsFor(d.calls, t)
    requires Regular(Fired(d, t, c), c.at, TimerOf(d.timers, t).period) && MessagesFor(d.queue, t) == []
    requires next == Latest(Fired(d, t, c), c.at) + TimerOf(d.timers, t).period <= Now(d) && d'.timers == d.timers
    requires !Listed(d', t) && d'.calls == d.calls + [Call(t, next)]
    requires d'.queue == d.queue + [Message(Start, t, Wrap(next), next)]
    ensures Phase(d', [], t, c, Now(d))
  {
    MessagesAppend(d.queue, Message(Start, t, Wrap(next), next), t);
    PhaseNext(d, d', t, c, Now(d), next);
  }

  lemma ObeyOwn(d: D, d': D, m: Message, t: TimerId, c: Origin)
    requires Valid(d) && Phase(d, [m], t, c, Now(d)) && m.timer == t && !Listed(d, t)
    requires m.at <= Now(d) < m.at + EPOCH && d' == Obey(d, m)
    ensures Phase(d', [], t, c, Now(d))
  {
    OwnMessage(d, m, t, c, Now(d));
    ObeyOutcome(d, d', m, t);
    var next := m.at + TimerOf(d.timers, t).period;
    if Now(d) >= next {
      StartedAgain(d, d', t, c, next);
    } else {
      assert MessagesFor([], t) + MessagesFor(d'.queue, t) == [];
    }
  }

  predicate CanReceive(d: D, now: nat) {
    && d.queue != [] && Now(d) <= now < Now(d) + EPOCH
    && (d.queue[0].command == Start ==> d.queue[0].at <= now < d.queue[0].at + EPOCH)
    && (d.queue[0].command == ChangePeriod ==> 0 < d.queue[0].value < EPOCH)
  }

  lemma ReceiveKeeps(d: D, now: nat)
    requires Valid(d) && CanReceive(d, now)
    ensures Valid(Receive(d, now)) && Now(d) <= Now(Receive(d, now)) <= now
  {
    var m := d.queue[0];
    var d1 := d.(queue := d.queue[1..]);
    if m.timer in d.timers {
      var d2 := Unlist(d1, m.timer);
      UnlistKeeps(d1, m.timer);
      SampleTime(d2, now);
      SampleUnlisted(d2, m.timer, now);
      ObeyKeeps(Sample(d2, now), m);
    }
  }

  lemma {:induction false} SwitchUnlisted(d: D, t: TimerId)
    requires Valid(d) && !Listed(d, t)
    ensures !Listed(SwitchLists(d), t) && (t in d.timers <==> t in SwitchLists(d).timers)
    ensures TimerOf(SwitchLists(d).timers, t) == TimerOf(d.timers, t)
    decreases Left(d.current, d.value)
  {
    if d.current != [] {
      DrainOneKeeps(d, d.current[0]);
      SwitchUnlisted(DrainOne(d), t);
    }
  }

  lemma SampleUnlisted(d: D, t: TimerId, now: nat)
    requires Valid(d) && !Listed(d, t)
    ensures !Listed(Sample(d, now), t) && (t in d.timers <==> t in Sample(d, now).timers)
  {
    SwitchUnlisted(d, t);
  }

  lemma PhasePopped(d: D, m: Message, t: TimerId, c: Origin, limit: nat)
    requires Phase(d, [], t, c, limit) && d.queue != [] && m == d.queue[0]
    ensures Phase(d.(queue := d.queue[1..]), [m], t, c, limit)
  {
    assert MessagesFor([], t) + MessagesFor(d.queue, t) == MessagesFor([m], t) + MessagesFor(d.queue[1..], t);
  }

  lemma PhaseUnlisted(d: D, m: Message, t: TimerId, c: Origin, limit: nat)
    requires Valid(d) && Phase(d, [m], t, c, limit)
    ensures Phase(Unlist(d, m.timer), [m], t, c, limit)
  {
    UnlistKeeps(d, m.timer);
    if m.timer == t {
      assert m in MessagesFor([m], t) + MessagesFor(d.queue, t);
      assert !Listed(d, t);
    } else {
      PhaseElsewhere(d, Unlist(d, m.timer), [m], t, m.timer, c, limit);
    }
  }

  /** One message from the queue, for whatever timer, keeps every running auto-reload timer that got no
      other command in its series. */
  lemma ReceivePhase(d: D, t: TimerId, c: Origin, now: nat)
    requires Valid(d) && CanReceive(d, now) && Phase(d, [], t, c, Now(d))
    ensures Phase(Receive(d, now), [], t, c, Now(Receive(d, now)))
  {
    var m := d.queue[0];
    var d1 := d.(queue := d.queue[1..]);
    PhasePopped(d, m, t, c, Now(d));
    if m.timer !in d.timers {
      HandOfListed(d1, [m], t, c, Now(d));
    } else {
      var d2 := Unlist(d1, m.timer);
      UnlistKeeps(d1, m.timer);
      var d3 := Sample(d2, now);
      PhaseUnlisted(d1, m, t, c, Now(d));
      SampleTime(d2, now);
      SampleUnlisted(d2, m.timer, now);
      SamplePhase(d2, [m], t, c, now);
      ObeyKeeps(d3, m);
      ObeyPhase(d3, m, t, c);
    }
  }

  lemma ObeyPhase(d: D, m: Message, t: TimerId, c: Origin)
    requires Valid(d) && m.timer in d.timers && !Listed(d, m.timer) && Phase(d, [m], t, c, Now(d))
    requires m.command == Start ==> m.at <= Now(d) < m.at + EPOCH
    requires m.command == ChangePeriod ==> 0 < m.value < EPOCH
    ensures Phase(Obey(d, m), [], t, c, Now(d))
  {
    if m.timer == t {
      assert m in MessagesFor([m], t) + MessagesFor(d.queue, t);
      ObeyOwn(d, Obey(d, m), m, t, c);
    } else {
      ObeyKeeps(d, m);
      ObeyQueue(d, m, t);
      PhaseElsewhere(d, Obey(d, m), [m], t, m.timer, c, Now(d));
      HandOfListed(Obey(d, m), [m], t, c, Now(d));
    }
  }

  // ---------- whole runs ----------

  datatype Step =
    | CheckTimers(now: nat)    // a round of prvProcessTimerOrBlockTask
    | TakeCommand(now: nat)    // a round of prvProcessReceivedCommands
    | Post(m: Message)         // a task or an interrupt sends a command

  /** Less than 2^32 ticks pass between two samples of the time and between the time of a start command and
      its processing, and new periods are positive.  The queue takes every command. */
  predicate Enabled(d: D, step: Step) {
    match step
    case CheckTimers(now) => Now(d) <= now < Now(d) + EPOCH
    case TakeCommand(now) => CanReceive(d, now)
    case Post(_) => true
  }

  function Next(d: D, step: Step): (d': D)
    requires Valid(d) && Enabled(d, step)
    ensures Valid(d') && Now(d) <= Now(d')
  {
    match step
    case CheckTimers(now) =>
      ProcessKeeps(d, now);
      ProcessTimers(d, now)
    case TakeCommand(now) =>
      ReceiveKeeps(d, now);
      Receive(d, now)
    case Post(m) => d.(queue := d.queue + [m])
  }

  ghost predicate Admissible(d: D, steps: seq<Step>)
    requires Valid(d)
    decreases |steps|
  {
    steps == [] || (Enabled(d, steps[0]) && Admissible(Next(d, steps[0]), steps[1..]))
  }

  ghost function Run(d: D, steps: seq<Step>): (d': D)
    requires Valid(d) && Admissible(d, steps)
    ensures Valid(d')
    decreases |steps|
  {
    if steps == [] then d else Run(Next(d, steps[0]), steps[1..])
  }

  lemma StepPhase(d: D, step: Step, t: TimerId, c: Origin)
    requires Valid(d) && Enabled(d, step) && Phase(d, [], t, c, Now(d))
    requires step.Post? ==> step.m.timer != t
    ensures Phase(Next(d, step), [], t, c, Now(Next(d, step)))
  {
    match step
    case CheckTimers(now) =>
      ProcessKeeps(d, now);
      ProcessPhase(d, t, c, now);
    case TakeCommand(now) => ReceivePhase(d, t, c, now);
    case Post(m) =>
      MessagesAppend(d.queue, m, t);
      PhaseElsewhere(d, Next(d, step), [], t, m.timer, c, Now(d));
  }

  lemma {:induction false} RunPhase(d: D, steps: seq<Step>, t: TimerId, c: Origin)
    requires Valid(d) && Admissible(d, steps) && Phase(d, [], t, c, Now(d))
    requires forall s | s in steps :: s.Post? ==> s.m.timer != t
    ensures Phase(Run(d, steps), [], t, c, Now(Run(d, steps)))
    decreases |steps|
  {
    if steps != [] {
      StepPhase(d, steps[0], t, c);
      RunPhase(Next(d, steps[0]), steps[1..], t, c);
    }
  }

  /** Timer `t` is not running and nothing is on its way to it. */
  ghost predicate Idle(d: D, t: TimerId) {
    && t in d.timers && TimerOf(d.timers, t).autoReload && !Listed(d, t)
    && MessagesFor(d.queue, t) == []
  }

  lemma StartsSeries(d: D, t: TimerId, at: nat)
    requires Valid(d) && Idle(d, t)
    ensures var d' := Next(d, Post(Message(Start, t, Wrap(at), at)));
            Phase(d', [], t, Origin(at, CallsFor(d.calls, t)), Now(d'))
  {
    MessagesAppend(d.queue, Message(Start, t, Wrap(at), at), t);
    assert MessagesFor([], t) + [Message(Start, t, Wrap(at), at)] == [Message(Start, t, Wrap(at), at)];
  }

  /** Nothing is left to do at the time of the last sample. */
  predicate CaughtUp(d: D) {
    d.queue == [] && (d.current == [] || ValueOf(d.value, d.current[0]) > d.last)
  }

  lemma CaughtUpAhead(d: D, t: TimerId, c: Origin)
    requires Valid(d) && CaughtUp(d) && Phase(d, [], t, c, Now(d))
    ensures Latest(Fired(d, t, c), c.at) + TimerOf(d.timers, t).period > Now(d)
  {
    assert MessagesFor([], t) + MessagesFor(d.queue, t) == [];
    assert Listed(d, t);
    if t in d.current {
      HeadIsLeast(d.current, d.value, t);
    }
  }

  /** An auto-reload timer of period p that is started at time c, be it for the first time or after earlier
      series: in every state of every run of the daemon its callbacks since then were for c + p, c + 2p and so
      on, each exactly once, in order and none early, and whenever the daemon has caught up none that was due
      by then is missing. */
  lemma NoDrift(d: D, t: TimerId, c: nat, steps: seq<Step>)
    requires Valid(d) && Idle(d, t)
    requires var d1 := Next(d, Post(Message(Start, t, Wrap(c), c))); Admissible(d1, steps)
    requires forall s | s in steps :: s.Post? ==> s.m.timer != t
    ensures var d' := Run(Next(d, Post(Message(Start, t, Wrap(c), c))), steps);
            var earlier, p := CallsFor(d.calls, t), TimerOf(d'.timers, t).period;
            && earlier <= CallsFor(d'.calls, t)
            && var fired := CallsFor(d'.calls, t)[|earlier|..];
               && (forall i | 0 <= i < |fired| :: fired[i] == c + (i + 1) * p && fired[i] <= Now(d'))
               && (CaughtUp(d') ==> c + (|fired| + 1) * p > Now(d'))
  {
    var d1 := Next(d, Post(Message(Start, t, Wrap(c), c)));
    var from := Origin(c, CallsFor(d.calls, t));
    StartsSeries(d, t, c);
    RunPhase(d1, steps, t, from);
    OnSchedule(Run(d1, steps), t, from);
  }

  lemma OnSchedule(d: D, t: TimerId, c: Origin)
    requires Valid(d) && Phase(d, [], t, c, Now(d))
    ensures var fired, p := Fired(d, t, c), TimerOf(d.timers, t).period;
            && (forall i | 0 <= i < |fired| :: fired[i] == c.at + (i + 1) * p && fired[i] <= Now(d))
            && (CaughtUp(d) ==> c.at + (|fired| + 1) * p > Now(d))
  {
    var fired, p := Fired(d, t, c), TimerOf(d.timers, t).period;
    forall i | 0 <= i < |fired|
      ensures fired[i] == c.at + (i + 1) * p && fired[i] <= Now(d)
    {
      RegularTimes(fired, c.at, p, i);
    }
    if CaughtUp(d) {
      LatestTime(fired, c.at, p);
      OneMorePeriod(|fired|, p);
      CaughtUpAhead(d, t, c);
    }
  }
}
