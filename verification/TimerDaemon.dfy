/**
  The timer daemon's own variables and its loops (FreeRTOS/Source/timers.c), each method proved against the
  function of the same name in TimerLists and Timers.
*/
module TimerDaemons {
  import opened TaskLists
  import opened TickTime
  import opened TimerLists
  import Timers
  import Stops = TimerStops

  class TimerDaemon {
    var timers: map<TimerId, Timer>
    var current: seq<TimerId>
    var overflow: seq<TimerId>
    var value: map<TimerId, nat>
    var last: nat
    var queue: seq<Message>
    var epochs: nat           // not in the source: how often the lists were switched
    ghost var calls: seq<Call>

    ghost function View(): D
      reads this
    {
      D(timers, current, overflow, value, last, epochs, queue, calls)
    }

    constructor ()
      ensures Valid(View()) && current == [] && overflow == [] && queue == [] && Now(View()) == 0
    {
      timers, current, overflow, value := map[], [], [], map[];
      last, queue, epochs, calls := 0, [], 0, [];
    }

    /** prvInsertTimerInActiveList, for a command given at unbounded time `at`, less than 2^32 ticks ago: true
        when the timer's next expiry has come already, otherwise it is listed for exactly that time. */
    method InsertTimerInActiveList(t: TimerId, next: nat, command: nat, ghost at: nat, ghost d: D) returns (processNow: bool)
      requires d == View() && Valid(d) && !Listed(d, t) && t in d.timers && at <= Now(d) < at + EPOCH
      requires command == Wrap(at) && next == Wrap(command + TimerOf(d.timers, t).period)
      modifies this`value, this`current, this`overflow
      ensures Valid(View()) && Others(d, View(), t) && View() == InsertTimer(d, t, next, command)
      ensures processNow <==> Late(next, d.last, command, TimerOf(d.timers, t).period)
      ensures processNow <==> Now(d) >= at + TimerOf(d.timers, t).period
      ensures if processNow then !Listed(View(), t)
              else Listed(View(), t) && Expiry(View(), t) == at + TimerOf(d.timers, t).period
    {
      processNow := Insert(t, next, command, d);
      InsertIsExact(d, View(), t, at, next, command);
      InsertKeeps(d, t, next, command);
    }

    method Insert(t: TimerId, next: nat, command: nat, ghost d: D) returns (processNow: bool)
      requires d == View()
      modifies this`value, this`current, this`overflow
      ensures View() == InsertTimer(d, t, next, command)
      ensures processNow <==> Late(next, d.last, command, TimerOf(d.timers, t).period)
    {
      processNow := false;
      value := value[t := next];
      if next <= last {
        if Wrap(last - command) >= TimerOf(timers, t).period {
          processNow := true;
        } else {
          overflow := Insertion(overflow, t, value);
        }
      } else {
        if last < command && next >= command {
          processNow := true;
        } else {
          current := Insertion(current, t, value);
        }
      }
    }

    /** xTimerGenericCommand by which the daemon restarts a timer itself */
    method GenericStart(t: TimerId, time: nat, at: nat)
      modifies this`queue
      ensures View() == Restart(old(View()), t, time, at)
    {
      queue := queue + [Message(Start, t, time, at)];
    }

    /** The timer's callback, of which the model keeps a record only */
    ghost method Callback(t: TimerId, due: nat)
      modifies this`calls
      ensures View() == Fire(old(View()), t, due)
    {
      calls := calls + [Call(t, due)];
    }

    /** prvProcessExpiredTimer, for the timer at the head of the current list: its callback is called for its
        expiry time.  An auto-reload timer is then listed for one period later, or restarted if that has come
        too; another timer stops. */
    method ProcessExpiredTimer()
      requires Valid(View()) && current != [] && ValueOf(value, current[0]) <= last
      modifies this
      ensures View() == ProcessExpired(old(View())) && Valid(View()) && Now(View()) == old(Now(View()))
      ensures var t, due := old(current[0]), old(Expiry(View(), current[0]));
              calls == old(calls) + [Call(t, due)] && Others(old(View()), View(), t)
      ensures var t, due := old(current[0]), old(Expiry(View(), current[0]));
              if !TimerOf(timers, t).autoReload then !Listed(View(), t) && queue == old(queue)
              else if Now(View()) < due + TimerOf(timers, t).period
              then Listed(View(), t) && Expiry(View(), t) == due + TimerOf(timers, t).period && queue == old(queue)
              else !Listed(View(), t) && queue == old(queue) + [Message(Start, t, Wrap(due), due)]
    {
      ghost var d := View();
      ProcessHead(d);
      Timers.ExpiredKeeps(d);
      Timers.ExpiredResult(d, View(), d.current[0], Expiry(d, d.current[0]));
    }

    method ProcessHead(ghost d: D)
      requires d == View() && Valid(d) && current != [] && ValueOf(value, current[0]) <= last
      modifies this
      ensures View() == ProcessExpired(d)
    {
      var t := current[0];
      var v := ValueOf(value, t);
      var at := Expiry(D(timers, current, overflow, value, last, epochs, queue, []), t);
      ghost var d1 := d.(current := d.current[1..]);
      ExpiredHead(d, t, v, at, d1);
      current := current[1..];
      Reload(t, v, at, d1);
      Callback(t, Expiry(d, t));
    }

    /** The part of prvProcessExpiredTimer that reloads or restarts a timer that expired at `at` */
    method Reload(t: TimerId, v: nat, at: nat, ghost d: D)
      requires d == View() && Valid(d) && !Listed(d, t) && t in d.timers && at <= Now(d) < at + EPOCH && v == Wrap(at)
      modifies this`value, this`current, this`overflow, this`queue
      ensures View() == Reloaded(d, t, v, at)
    {
      if TimerOf(timers, t).autoReload {
        var late := InsertTimerInActiveList(t, Wrap(v + TimerOf(timers, t).period), v, at, d);
        if late {
          GenericStart(t, v, at);
        }
      }
    }

    /** prvSwitchTimerLists */
    method SwitchTimerLists()
      requires Valid(View())
      modifies this
      ensures View() == Timers.SwitchLists(old(View())) && Valid(View()) && epochs == old(epochs) + 1
    {
      Timers.SwitchKeeps(View());
      while current != []
        invariant Valid(View()) && Timers.SwitchLists(View()) == Timers.SwitchLists(old(View()))
        decreases Timers.Left(current, value)
      {
        Timers.DrainOneKeeps(View(), current[0]);
        SwitchRound();
      }
      current, overflow := overflow, current;
      epochs := epochs + 1;
    }

    /** One round of the loop */
    method SwitchRound()
      requires current != []
      modifies this
      ensures View() == DrainOne(old(View()))
    {
      var t := current[0];
      var v := ValueOf(value, t);
      var at := Expiry(D(timers, current, overflow, value, last, epochs, queue, []), t);
      ghost var due := Expiry(View(), t);
      current := current[1..];
      Callback(t, due);
      if TimerOf(timers, t).autoReload {
        var reload := Wrap(v + TimerOf(timers, t).period);
        if reload > v {
          value := value[t := reload];
          current := Insertion(current, t, value);
        } else {
          GenericStart(t, v, at);
        }
      }
    }

    /** prvSampleTimeNow; `now` is the unbounded time, of which the daemon reads the tick count.  Less than 2^32
        ticks after the last sample the daemon's own time is the unbounded one. */
    method SampleTimeNow(now: nat) returns (switched: bool)
      requires Valid(View()) && Now(View()) <= now < Now(View()) + EPOCH
      modifies this
      ensures Valid(View()) && Now(View()) == now && View() == Timers.Sample(old(View()), now)
      ensures switched <==> now % EPOCH < old(last)
    {
      ghost var d := View();
      switched := Resample(now, d);
      Timers.SampleTime(d, now);
    }

    method Resample(now: nat, ghost d: D) returns (switched: bool)
      requires d == View() && Valid(d)
      modifies this
      ensures View() == Timers.Sample(d, now)
      ensures switched <==> now % EPOCH < d.last
    {
      switched := now % EPOCH < last;
      if switched {
        SwitchTimerLists();
      }
      last := now % EPOCH;
    }

    /** prvGetNextExpireTime followed by prvProcessTimerOrBlockTask: the step of a run that looks at the timers */
    method ProcessTimerOrBlockTask(now: nat)
      requires Valid(View()) && Timers.Enabled(View(), Timers.CheckTimers(now))
      modifies this
      ensures Valid(View()) && Now(View()) == now && View() == Timers.Next(old(View()), Timers.CheckTimers(now))
    {
      ghost var d := View();
      CheckTimers(now, d);
      Timers.ProcessKeeps(d, now);
    }

    method CheckTimers(now: nat, ghost d: D)
      requires d == View() && Valid(d) && Now(d) <= now < Now(d) + EPOCH
      modifies this
      ensures View() == Timers.ProcessTimers(d, now)
    {
      var empty := current == [];
      var next := if empty then 0 else ValueOf(value, current[0]);
      var switched := SampleTimeNow(now);
      if !switched {
        if !empty && next <= last {
          ProcessExpiredTimer();
        }
      }
    }

    /** One round of the loop of prvProcessReceivedCommands: the step of a run that takes a command.  A stopped
        timer is in no list, one with a new period expires that period from now, and one that is started is
        listed for its first expiry unless that has come.  A message for an unknown timer is dropped. */
    method ProcessReceivedCommand(now: nat)
      requires Valid(View()) && Timers.Enabled(View(), Timers.TakeCommand(now)) && Stops.TimelyMessage(queue[0], now)
      modifies this
      ensures Valid(View()) && View() == Timers.Next(old(View()), Timers.TakeCommand(now))
      ensures var m := old(queue[0]); m.timer in old(timers) ==> Now(View()) == now && Stops.Carried(m, View())
      ensures old(queue[0].timer) !in old(timers) ==> View() == old(View()).(queue := old(queue[1..]))
    {
      ghost var d := View();
      TakeCommand(now, d);
      Timers.ReceiveKeeps(d, now);
      if d.queue[0].timer in d.timers {
        Stops.CommandResult(d, now, View(), d.queue[0]);
      } else {
        assert View() == d.(queue := d.queue[1..]);
      }
    }

    method TakeCommand(now: nat, ghost d: D)
      requires d == View() && Valid(d) && Timers.CanReceive(d, now) && Stops.TimelyMessage(d.queue[0], now)
      modifies this
      ensures View() == Timers.Receive(d, now)
    {
      var m := queue[0];
      queue := queue[1..];
      if m.timer in timers {
        Timers.UnlistKeeps(View(), m.timer);
        current := Without(current, m.timer);
        overflow := Without(overflow, m.timer);
        Timers.SampleUnlisted(View(), m.timer, now);
        var switched := SampleTimeNow(now);
        Execute(m, View());
      }
    }

    /** The switch over the commands */
    method Execute(m: Message, ghost d: D)
      requires d == View() && Valid(d) && m.timer in timers && !Listed(d, m.timer) && Stops.TimelyMessage(m, Now(d))
      modifies this
      ensures View() == Timers.Obey(d, m)
    {
      match m.command
      case Stop =>
      case ChangePeriod => ExecuteChange(m, m.timer, d);
      case Start => ExecuteStart(m, m.timer, d);
    }

    method ExecuteChange(m: Message, t: TimerId, ghost d: D)
      requires d == View() && Valid(d) && t == m.timer && t in timers && !Listed(d, t) && Stops.TimelyMessage(m, Now(d))
      requires m.command == ChangePeriod
      modifies this
      ensures View() == Timers.Obey(d, m)
    {
      ghost var d1 := d.(timers := d.timers[t := TimerOf(d.timers, t).(period := m.value)]);
      Timers.PeriodKeeps(d, t, m.value, d1);
      NowParts(d);
      timers := timers[t := TimerOf(timers, t).(period := m.value)];
      var late := InsertTimerInActiveList(t, Wrap(last + m.value), last, Now(d), d1);
    }

    method ExecuteStart(m: Message, t: TimerId, ghost d: D)
      requires d == View() && Valid(d) && t == m.timer && t in timers && !Listed(d, t) && Stops.TimelyMessage(m, Now(d))
      requires m.command == Start
      modifies this
      ensures View() == Timers.Obey(d, m)
    {
      var p := TimerOf(timers, t).period;
      var late := InsertTimerInActiveList(t, Wrap(m.value + p), m.value, m.at, d);
      StartCases(d, m, t, p, Wrap(m.value + p), View());
      if late {
        FireLate(t, Wrap(m.value + p), m.at + p, View());
      }
    }

    /** The callback of a timer that was due when it was started */
    method FireLate(t: TimerId, next: nat, due: nat, ghost d: D)
      requires d == View()
      modifies this`calls, this`queue
      ensures View() == if TimerOf(d.timers, t).autoReload then Restart(Fire(d, t, due), t, next, due) else Fire(d, t, due)
    {
      Callback(t, due);
      if TimerOf(timers, t).autoReload {
        GenericStart(t, next, due);
      }
    }
  }

  function Reloaded(d: D, t: TimerId, v: nat, at: nat): D {
    var p := TimerOf(d.timers, t).period;
    if !TimerOf(d.timers, t).autoReload then d
    else if Late(Wrap(v + p), d.last, v, p) then Restart(InsertTimer(d, t, Wrap(v + p), v), t, v, at)
    else InsertTimer(d, t, Wrap(v + p), v)
  }

  lemma ExpiredHead(d: D, t: TimerId, v: nat, at: nat, d1: D)
    requires Valid(d) && d.current != [] && t == d.current[0] && v == ValueOf(d.value, t) <= d.last && at == Expiry(d, t)
    requires d1 == d.(current := d.current[1..])
    ensures Valid(d1) && !Listed(d1, t) && t in d.timers && at <= Now(d1) < at + EPOCH && v == Wrap(at)
    ensures ProcessExpired(d) == Fire(Reloaded(d1, t, v, at), t, at)
  {
    Timers.PopKeeps(d, t, d1);
    Timers.WrapParts(d.epochs, v);
    ExpiredReload(d, t, v, at, d1);
  }

  lemma ExpiredReload(d: D, t: TimerId, v: nat, at: nat, d1: D)
    requires Valid(d) && d.current != [] && t == d.current[0] && v == ValueOf(d.value, t) && at == Expiry(d, t)
    requires d1 == d.(current := d.current[1..])
    ensures ProcessExpired(d) == Fire(Reloaded(d1, t, v, at), t, at)
  {
    Timers.ExpiredParts(d, t, d1, Wrap(v + TimerOf(d.timers, t).period));
  }

  /** What a start command does once the timer is inserted */
  lemma StartCases(d: D, m: Message, t: TimerId, p: nat, next: nat, d1: D)
    requires m.command == Start && t == m.timer && p == TimerOf(d.timers, t).period && next == Wrap(m.value + p)
    requires d1 == InsertTimer(d, t, next, m.value)
    ensures d1.timers == d.timers
    ensures Timers.Obey(d, m) == if !Late(next, d.last, m.value, p) then d1
                                 else if TimerOf(d.timers, t).autoReload
                                 then Restart(Fire(d1, t, m.at + p), t, next, m.at + p)
                                 else Fire(d1, t, m.at + p)
  {
  }
}
