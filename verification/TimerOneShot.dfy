/**
  One-shot timers (FreeRTOS/Source/timers.c): a timer that does not reload gets exactly one callback for each
  time it is started, for the end of its period.
*/
module OneShots {
  import opened TaskLists
  import opened TickTime
  import opened TimerLists
  import opened Timers
  import opened TimerStops

  /** A one-shot timer started at `at`: its start command is on its way, it waits in a list for `due`, or it
      had its one callback and stopped. */
  predicate Stage(t: TimerId, at: nat, due: nat, earlier: seq<nat>, limit: nat,
                  calls: seq<nat>, messages: seq<Message>, listed: bool, expiry: nat)
  {
    && (messages != [] ==> messages == [Message(Start, t, Wrap(at), at)] && !listed && calls == earlier)
    && (listed ==> expiry == due && calls == earlier)
    && (messages == [] && !listed ==> due <= limit && calls == earlier + [due])
  }

  /** The start command may be in the queue or in the daemon's hand. */
  predicate Shot(d: D, hand: seq<Message>, t: TimerId, at: nat, earlier: seq<nat>, limit: nat) {
    && t in d.timers && !TimerOf(d.timers, t).autoReload
    && Stage(t, at, at + TimerOf(d.timers, t).period, earlier, limit, CallsFor(d.calls, t),
             MessagesFor(hand, t) + MessagesFor(d.queue, t), Listed(d, t), Expiry(d, t))
  }

  /** Steps that concern another timer leave this one alone. */
  lemma ShotElsewhere(d: D, d': D, hand: seq<Message>, t: TimerId, u: TimerId, at: nat, earlier: seq<nat>, limit: nat)
    requires Shot(d, hand, t, at, earlier, limit) && Others(d, d', u) && t != u
    requires CallsFor(d'.calls, t) == CallsFor(d.calls, t) && MessagesFor(d'.queue, t) == MessagesFor(d.queue, t)
    ensures Shot(d', hand, t, at, earlier, limit)
  {
  }

  lemma ShotLater(d: D, hand: seq<Message>, t: TimerId, at: nat, earlier: seq<nat>, limit: nat, limit': nat, last: nat)
    requires Shot(d, hand, t, at, earlier, limit) && limit <= limit'
    ensures Shot(d.(last := last), hand, t, at, earlier, limit')
  {
  }

  /** Its callback for `due` ends the matter. */
  lemma ShotFired(d: D, d': D, hand: seq<Message>, t: TimerId, at: nat, earlier: seq<nat>, limit: nat, due: nat)
    requires Shot(d, hand, t, at, earlier, limit) && d'.timers == d.timers && !Listed(d', t)
    requires CallsFor(d.calls, t) == earlier && CallsFor(d'.calls, t) == earlier + [due]
    requires due == at + TimerOf(d.timers, t).period <= limit
    requires MessagesFor(hand, t) + MessagesFor(d'.queue, t) == []
    ensures Shot(d', hand, t, at, earlier, limit)
  {
  }

  // ---------- the lists ----------

  lemma DrainOneShot(d: D, hand: seq<Message>, t: TimerId, at: nat, earlier: seq<nat>)
    requires Valid(d) && d.current != [] && Shot(d, hand, t, at, earlier, (d.epochs + 1) * EPOCH)
    ensures Shot(DrainOne(d), hand, t, at, earlier, (d.epochs + 1) * EPOCH)
  {
    var u := d.current[0];
    DrainOneKeeps(d, u);
    DrainOneQueue(d, t, u);
    if t != u {
      ShotElsewhere(d, DrainOne(d), hand, t, u, at, earlier, (d.epochs + 1) * EPOCH);
    } else {
      assert d.current[0] in d.current;
      DrainOneLists(d, u, Wrap(ValueOf(d.value, u) + TimerOf(d.timers, u).period));
      ShotFired(d, DrainOne(d), hand, t, at, earlier, (d.epochs + 1) * EPOCH, Expiry(d, t));
    }
  }

  lemma ListsSwitched(d: D, d': D, hand: seq<Message>, t: TimerId, at: nat, earlier: seq<nat>, limit: nat)
    requires Shot(d, hand, t, at, earlier, limit) && d.current == []
    requires d' == d.(current := d.overflow, overflow := [], epochs := d.epochs + 1)
    ensures Shot(d', hand, t, at, earlier, limit)
  {
    assert Listed(d, t) == Listed(d', t) && (Listed(d, t) ==> Expiry(d', t) == Expiry(d, t));
  }

  lemma {:induction false} SwitchShot(d: D, hand: seq<Message>, t: TimerId, at: nat, earlier: seq<nat>)
    requires Valid(d) && Shot(d, hand, t, at, earlier, (d.epochs + 1) * EPOCH)
    ensures Shot(SwitchLists(d), hand, t, at, earlier, (d.epochs + 1) * EPOCH)
    decreases Left(d.current, d.value)
  {
    if d.current == [] {
      ListsSwitched(d, SwitchLists(d), hand, t, at, earlier, (d.epochs + 1) * EPOCH);
    } else {
      DrainOneKeeps(d, d.current[0]);
      DrainOneShot(d, hand, t, at, earlier);
      SwitchShot(DrainOne(d), hand, t, at, earlier);
    }
  }

  lemma SampleShot(d: D, hand: seq<Message>, t: TimerId, at: nat, earlier: seq<nat>, now: nat)
    requires Valid(d) && Now(d) <= now < Now(d) + EPOCH && Shot(d, hand, t, at, earlier, Now(d))
    ensures Shot(Sample(d, now), hand, t, at, earlier, now)
  {
    SampleTime(d, now);
    if now % EPOCH < d.last {
      ShotLater(d, hand, t, at, earlier, Now(d), (d.epochs + 1) * EPOCH, d.last);
      SwitchShot(d, hand, t, at, earlier);
      ShotLater(SwitchLists(d), hand, t, at, earlier, (d.epochs + 1) * EPOCH, now, now % EPOCH);
    } else {
      ShotLater(d, hand, t, at, earlier, Now(d), now, now % EPOCH);
    }
  }

  lemma ExpiredShot(d: D, t: TimerId, at: nat, earlier: seq<nat>)
    requires Valid(d) && d.current != [] && ValueOf(d.value, d.current[0]) <= d.last
    requires Shot(d, [], t, at, earlier, Now(d))
    ensures Shot(ProcessExpired(d), [], t, at, earlier, Now(d))
  {
    var u, due := d.current[0], Expiry(d, d.current[0]);
    ExpiredQueue(d, t, u);
    if t != u {
      ExpiredKeeps(d);
      ShotElsewhere(d, ProcessExpired(d), [], t, u, at, earlier, Now(d));
    } else {
      assert d.current[0] in d.current;
      ExpiredResult(d, ProcessExpired(d), t, due);
      ShotFired(d, ProcessExpired(d), [], t, at, earlier, Now(d), due);
    }
  }

  lemma ProcessShot(d: D, t: TimerId, at: nat, earlier: seq<nat>, now: nat)
    requires Valid(d) && Now(d) <= now < Now(d) + EPOCH && Shot(d, [], t, at, earlier, Now(d))
    ensures Shot(ProcessTimers(d, now), [], t, at, earlier, now)
  {
    SampleTime(d, now);
    SampleShot(d, [], t, at, earlier, now);
    var d1 := Sample(d, now);
    if now % EPOCH >= d.last && d.current != [] && ValueOf(d.value, d.current[0]) <= d1.last {
      ExpiredShot(d1, t, at, earlier);
    }
  }

  // ---------- the commands ----------

  lemma UnlistShot(d: D, m: Message, t: TimerId, at: nat, earlier: seq<nat>, limit: nat)
    requires Valid(d) && Shot(d, [m], t, at, earlier, limit)
    ensures Shot(Unlist(d, m.timer), [m], t, at, earlier, limit)
  {
    UnlistKeeps(d, m.timer);
    if m.timer == t {
      assert m in MessagesFor([m], t) + MessagesFor(d.queue, t);
      assert !Listed(d, t);
    } else {
      ShotElsewhere(d, Unlist(d, m.timer), [m], t, m.timer, at, earlier, limit);
    }
  }

  lemma StartQueue(d: D, m: Message, d': D)
    requires m.command == Start && !TimerOf(d.timers, m.timer).autoReload && d' == Obey(d, m)
    ensures d'.queue == d.queue
  {
    InsertQueue(d, m.timer, Wrap(m.value + TimerOf(d.timers, m.timer).period), m.value);
  }

  /** The start command itself */
  lemma StartShot(d: D, m: Message, t: TimerId, at: nat, earlier: seq<nat>, d': D)
    requires Valid(d) && m.timer == t && !Listed(d, t) && Shot(d, [m], t, at, earlier, Now(d))
    requires (m.command == Start ==> m.at <= Now(d) < m.at + EPOCH) && d' == Obey(d, m)
    ensures Shot(d', [], t, at, earlier, Now(d))
  {
    assert MessagesFor([m], t) == [m];
    assert ([m] + MessagesFor(d.queue, t))[0] == m;
    assert MessagesFor(d.queue, t) == [];
    var p := TimerOf(d.timers, t).period;
    StartRouses(d, m, t, d', p);
    StartQueue(d, m, d');
    CallsAppend(d.calls, Call(t, at + p), t);
    assert MessagesFor([], t) + MessagesFor(d'.queue, t) == [];
  }

  lemma ObeyShot(d: D, m: Message, t: TimerId, at: nat, earlier: seq<nat>)
    requires Valid(d) && m.timer in d.timers && !Listed(d, m.timer) && Shot(d, [m], t, at, earlier, Now(d))
    requires m.command == Start ==> m.at <= Now(d) < m.at + EPOCH
    requires m.command == ChangePeriod ==> 0 < m.value < EPOCH
    ensures Shot(Obey(d, m), [], t, at, earlier, Now(d))
  {
    if m.timer == t {
      StartShot(d, m, t, at, earlier, Obey(d, m));
    } else {
      ObeyKeeps(d, m);
      ObeyQueue(d, m, t);
      ShotElsewhere(d, Obey(d, m), [m], t, m.timer, at, earlier, Now(d));
      assert MessagesFor([m], t) == MessagesFor([], t);
    }
  }

  /** The message that is taken from the queue comes into the daemon's hand. */
  lemma TakeShot(d: D, m: Message, d1: D, t: TimerId, at: nat, earlier: seq<nat>, limit: nat)
    requires d.queue != [] && m == d.queue[0] && d1 == d.(queue := d.queue[1..])
    requires Shot(d, [], t, at, earlier, limit)
    ensures Shot(d1, [m], t, at, earlier, limit)
    ensures m.timer !in d.timers ==> Shot(d1, [], t, at, earlier, limit)
  {
    assert MessagesFor([], t) + MessagesFor(d.queue, t) == MessagesFor([m], t) + MessagesFor(d1.queue, t);
    assert m.timer != t ==> MessagesFor([m], t) == MessagesFor([], t);
  }

  lemma ReceiveShot(d: D, m: Message, t: TimerId, at: nat, earlier: seq<nat>, now: nat)
    requires Valid(d) && CanReceive(d, now) && m == d.queue[0] && Shot(d, [], t, at, earlier, Now(d))
    ensures Shot(Receive(d, now), [], t, at, earlier, Now(Receive(d, now)))
  {
    var d1 := d.(queue := d.queue[1..]);
    TakeShot(d, m, d1, t, at, earlier, Now(d));
    if m.timer in d.timers {
      CarryShot(d1, m, t, at, earlier, now, Receive(d, now));
    }
  }

  lemma CarryShot(d: D, m: Message, t: TimerId, at: nat, earlier: seq<nat>, now: nat, d': D)
    requires Valid(d) && m.timer in d.timers && Now(d) <= now < Now(d) + EPOCH && Shot(d, [m], t, at, earlier, Now(d))
    requires m.command == Start ==> m.at <= now < m.at + EPOCH
    requires m.command == ChangePeriod ==> 0 < m.value < EPOCH
    requires Valid(Unlist(d, m.timer)) ==> d' == Obey(Sample(Unlist(d, m.timer), now), m)
    ensures Shot(d', [], t, at, earlier, Now(d'))
  {
    var d2 := Unlist(d, m.timer);
    UnlistKeeps(d, m.timer);
    UnlistShot(d, m, t, at, earlier, Now(d));
    SampleTime(d2, now);
    SampleUnlisted(d2, m.timer, now);
    SampleShot(d2, [m], t, at, earlier, now);
    ObeyKeeps(Sample(d2, now), m);
    ObeyShot(Sample(d2, now), m, t, at, earlier);
  }

  // ---------- whole runs ----------

  lemma StepShot(d: D, step: Step, t: TimerId, at: nat, earlier: seq<nat>)
    requires Valid(d) && Enabled(d, step) && Shot(d, [], t, at, earlier, Now(d))
    requires step.Post? ==> step.m.timer != t
    ensures Shot(Next(d, step), [], t, at, earlier, Now(Next(d, step)))
  {
    match step
    case CheckTimers(now) =>
      ProcessKeeps(d, now);
      ProcessShot(d, t, at, earlier, now);
    case TakeCommand(now) => ReceiveShot(d, d.queue[0], t, at, earlier, now);
    case Post(m) =>
      MessagesAppend(d.queue, m, t);
      ShotElsewhere(d, Next(d, step), [], t, m.timer, at, earlier, Now(d));
  }

  lemma {:induction false} RunShot(d: D, steps: seq<Step>, t: TimerId, at: nat, earlier: seq<nat>)
    requires Valid(d) && Admissible(d, steps) && WithoutPosts(steps, t) && Shot(d, [], t, at, earlier, Now(d))
    ensures Shot(Run(d, steps), [], t, at, earlier, Now(Run(d, steps)))
    decreases |steps|
  {
    if steps != [] {
      StepShot(d, steps[0], t, at, earlier);
      RunShot(Next(d, steps[0]), steps[1..], t, at, earlier);
    }
  }

  /** A one-shot timer of period p that is started at time c while it does not run: in every state of every run
      of the daemon it has had exactly one callback since then, for c + p and not early, or none while its start
      command is on its way or it waits in a list.  Whenever the daemon has caught up at c + p or later, it has
      had the callback. */
  lemma FiresOnce(d: D, t: TimerId, c: nat, d1: D, steps: seq<Step>, d': D)
    requires Valid(d) && t in d.timers && !TimerOf(d.timers, t).autoReload && !Listed(d, t)
    requires MessagesFor(d.queue, t) == [] && d1 == Next(d, Post(Message(Start, t, Wrap(c), c)))
    requires Admissible(d1, steps) && WithoutPosts(steps, t) && d' == Run(d1, steps)
    ensures var due, over := c + TimerOf(d'.timers, t).period, !Listed(d', t) && MessagesFor(d'.queue, t) == [];
            && (!over ==> CallsFor(d'.calls, t) == CallsFor(d.calls, t))
            && (over ==> CallsFor(d'.calls, t) == CallsFor(d.calls, t) + [due] && due <= Now(d'))
            && (CaughtUp(d') && due <= Now(d') ==> over)
  {
    ShotPosted(d, Message(Start, t, Wrap(c), c), t, c, d1);
    RunShot(d1, steps, t, c, CallsFor(d.calls, t));
    ShotSeen(d', t, c, CallsFor(d.calls, t));
  }

  lemma ShotPosted(d: D, m: Message, t: TimerId, at: nat, d1: D)
    requires t in d.timers && !TimerOf(d.timers, t).autoReload && !Listed(d, t) && MessagesFor(d.queue, t) == []
    requires m == Message(Start, t, Wrap(at), at) && d1 == d.(queue := d.queue + [m])
    ensures Shot(d1, [], t, at, CallsFor(d.calls, t), Now(d1))
  {
    MessagesAppend(d.queue, m, t);
    assert MessagesFor([], t) + [m] == [m];
  }

  lemma ShotSeen(d: D, t: TimerId, at: nat, earlier: seq<nat>)
    requires Valid(d) && Shot(d, [], t, at, earlier, Now(d))
    ensures var due, over := at + TimerOf(d.timers, t).period, !Listed(d, t) && MessagesFor(d.queue, t) == [];
            && (!over ==> CallsFor(d.calls, t) == earlier)
            && (over ==> CallsFor(d.calls, t) == earlier + [due] && due <= Now(d))
            && (CaughtUp(d) && due <= Now(d) ==> over)
  {
    assert MessagesFor([], t) + MessagesFor(d.queue, t) == MessagesFor(d.queue, t);
    if CaughtUp(d) && t in d.current {
      HeadIsLeast(d.current, d.value, t);
    }
  }
}
