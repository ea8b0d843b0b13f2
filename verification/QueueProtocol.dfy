/**
  The queue's blocking protocol (FreeRTOS/Source/queue.c): tasks that retry until a message or a free
  slot is there, interrupts that act on the queue at any moment, and lock counts that put off the
  wake-ups of interrupts while a task is about to block.
*/
module QueueProtocol {
  import opened TaskLists

  const UNLOCKED: int := -1

  datatype Position = ToBack | ToFront | Overwrite

  /** The control part of a queue: counts, locks and event lists (highest priority first).  The woken
      sets hold the tasks that an event took off an event list and that have not yet retried. */
  datatype Q = Q(length: nat, itemSize: nat, waiting: nat, rxLock: int, txLock: int,
                 senders: seq<Task>, receivers: seq<Task>,
                 wokenSenders: set<Task>, wokenReceivers: set<Task>)

  // ---------- critical sections ----------

  function WakeReceiver(q: Q): Q {
    if q.receivers == [] then q
    else q.(receivers := q.receivers[1..], wokenReceivers := q.wokenReceivers + {q.receivers[0]})
  }

  function WakeSender(q: Q): Q {
    if q.senders == [] then q
    else q.(senders := q.senders[1..], wokenSenders := q.wokenSenders + {q.senders[0]})
  }

  /** Task `t` reaches the critical section again. */
  function Retry(q: Q, t: Task): Q {
    q.(wokenSenders := q.wokenSenders - {t}, wokenReceivers := q.wokenReceivers - {t})
  }

  predicate CanSend(q: Q, position: Position) {
    q.waiting < q.length || position == Overwrite
  }

  /** The message count after an item goes in.  Without storage an overwrite still adds one. */
  function Put(q: Q, position: Position): Q {
    q.(waiting := if q.itemSize > 0 && position == Overwrite && q.waiting > 0 then q.waiting else q.waiting + 1)
  }

  function SendSection(q: Q, t: Task, position: Position): Q {
    var r := Retry(q, t);
    if CanSend(r, position) then WakeReceiver(Put(r, position)) else r
  }

  function SendFromISR(q: Q, position: Position): Q {
    if !CanSend(q, position) then q
    else
      var r := Put(q, position);
      if r.txLock == UNLOCKED then WakeReceiver(r) else r.(txLock := r.txLock + 1)
  }

  function ReceiveSection(q: Q, t: Task, peek: bool): Q {
    var r := Retry(q, t);
    if r.waiting == 0 then r
    else if peek then WakeReceiver(r)
    else WakeSender(r.(waiting := r.waiting - 1))
  }

  function ReceiveFromISR(q: Q): Q {
    if q.waiting == 0 then q
    else
      var r := q.(waiting := q.waiting - 1);
      if r.rxLock == UNLOCKED then WakeSender(r) else r.(rxLock := r.rxLock + 1)
  }

  function Lock(q: Q): Q {
    q.(rxLock := if q.rxLock == UNLOCKED then 0 else q.rxLock,
       txLock := if q.txLock == UNLOCKED then 0 else q.txLock)
  }

  /** One receiver is woken for each message an interrupt added while the queue was locked. */
  function UnlockTx(q: Q): Q
    decreases |q.receivers|
  {
    if q.txLock > 0 && q.receivers != [] then UnlockTx(WakeReceiver(q).(txLock := q.txLock - 1))
    else q.(txLock := UNLOCKED)
  }

  function UnlockRx(q: Q): Q
    decreases |q.senders|
  {
    if q.rxLock > 0 && q.senders != [] then UnlockRx(WakeSender(q).(rxLock := q.rxLock - 1))
    else q.(rxLock := UNLOCKED)
  }

  function Reset(q: Q): Q {
    WakeSender(q.(waiting := 0, rxLock := UNLOCKED, txLock := UNLOCKED))
  }

  function Insert(s: seq<Task>, p: nat, t: Task): seq<Task>
    requires p <= |s|
  {
    s[..p] + [t] + s[p..]
  }

  // ---------- tasks and interrupts interleaved ----------

  datatype Call = Send(position: Position) | Receive(peek: bool)

  /** Where a task is in the retry loop of a blocking call. */
  datatype Place =
    | Outside
    | Top(call: Call)                    // about to enter the critical section
    | Failed(call: Call)                 // found the queue full or empty, about to suspend and lock
    | Locked(call: Call)                 // holds the lock, about to look at its timeout
    | Checking(call: Call)               // about to test again for full or empty
    | Placing(call: Call)                // found it still full or empty, about to join the event list
    | Unlocking(call: Call, next: Next)  // about to unlock the transmit side
    | Unlocked(call: Call, next: Next)   // about to unlock the receive side and resume the scheduler
    | Blocked(call: Call)

  datatype Next = Block | TryAgain | GiveUp

  datatype State = State(q: Q, at: map<Task, Place>, suspender: int)

  const NOBODY: int := -1

  datatype Step =
    | Start(t: Task, call: Call)
    | Enter(t: Task, mayBlock: bool)
    | TakeLock(t: Task)
    | CheckTimeOut(t: Task, expired: bool)
    | CheckQueue(t: Task)
    | Join(t: Task, p: nat)
    | ReleaseTx(t: Task)
    | ReleaseRx(t: Task)
    | Resume(t: Task)
    | TimeOut(t: Task, p: nat)
    | InterruptSend(position: Position)
    | InterruptReceive
    | ResetQueue

  /** Is the queue still in the state that made the call fail? */
  predicate Stuck(q: Q, call: Call) {
    if call.Send? then q.waiting == q.length else q.waiting == 0
  }

  predicate Succeeds(q: Q, call: Call) {
    if call.Send? then CanSend(q, call.position) else q.waiting > 0
  }

  function Section(q: Q, t: Task, call: Call): Q {
    if call.Send? then SendSection(q, t, call.position) else ReceiveSection(q, t, call.peek)
  }

  function JoinList(q: Q, t: Task, call: Call, p: nat): Q
    requires p <= |if call.Send? then q.senders else q.receivers|
  {
    if call.Send? then q.(senders := Insert(q.senders, p, t)) else q.(receivers := Insert(q.receivers, p, t))
  }

  /** Position and length rules of the callers: an overwrite is for a queue of length one that stores items. */
  predicate Legal(q: Q, position: Position) {
    position == Overwrite ==> q.length == 1 && q.itemSize > 0
  }

  /** A task may run unless another task has the scheduler suspended. */
  predicate MayRun(s: State, t: Task) {
    t in s.at && (s.suspender == NOBODY || s.suspender == t)
  }

  predicate Enabled(s: State, step: Step) {
    match step
    case Start(t, call) => MayRun(s, t) && s.at[t] == Outside && (call.Send? ==> Legal(s.q, call.position))
    case Enter(t, mayBlock) => MayRun(s, t) && s.at[t].Top?
    case TakeLock(t) => MayRun(s, t) && s.at[t].Failed?
    case CheckTimeOut(t, expired) => MayRun(s, t) && s.at[t].Locked?
    case CheckQueue(t) => MayRun(s, t) && s.at[t].Checking?
    case Join(t, p) =>
      MayRun(s, t) && s.at[t].Placing? && p <= |if s.at[t].call.Send? then s.q.senders else s.q.receivers|
    case ReleaseTx(t) => MayRun(s, t) && s.at[t].Unlocking?
    case ReleaseRx(t) => MayRun(s, t) && s.at[t].Unlocked?
    case Resume(t) => MayRun(s, t) && s.at[t].Blocked? && t !in s.q.senders && t !in s.q.receivers
    case TimeOut(t, p) =>
      && s.suspender == NOBODY && t in s.at && s.at[t].Blocked?
      && var l := if s.at[t].call.Send? then s.q.senders else s.q.receivers; p < |l| && l[p] == t
    case InterruptSend(position) => Legal(s.q, position)
    case InterruptReceive => true
    case ResetQueue => s.suspender == NOBODY
  }

  function Apply(s: State, step: Step): State
    requires Enabled(s, step)
  {
    match step
    case Start(t, call) => s.(at := s.at[t := Top(call)])
    case Enter(t, mayBlock) =>
      var call := s.at[t].call;
      State(Section(s.q, t, call),
            s.at[t := if Succeeds(s.q, call) || !mayBlock then Outside else Failed(call)], s.suspender)
    case TakeLock(t) => State(Lock(s.q), s.at[t := Locked(s.at[t].call)], t)
    case CheckTimeOut(t, expired) =>
      s.(at := s.at[t := if expired then Unlocking(s.at[t].call, GiveUp) else Checking(s.at[t].call)])
    case CheckQueue(t) =>
      s.(at := s.at[t := if Stuck(s.q, s.at[t].call) then Placing(s.at[t].call) else Unlocking(s.at[t].call, TryAgain)])
    case Join(t, p) =>
      s.(q := JoinList(s.q, t, s.at[t].call, p), at := s.at[t := Unlocking(s.at[t].call, Block)])
    case ReleaseTx(t) => s.(q := UnlockTx(s.q), at := s.at[t := Unlocked(s.at[t].call, s.at[t].next)])
    case ReleaseRx(t) =>
      var call := s.at[t].call;
      State(UnlockRx(s.q),
            s.at[t := match s.at[t].next case Block => Blocked(call) case TryAgain => Top(call) case GiveUp => Outside],
            NOBODY)
    case Resume(t) => s.(at := s.at[t := Top(s.at[t].call)])
    case TimeOut(t, p) =>
      var cut := (l: seq<Task>) requires p < |l| => l[..p] + l[p + 1..];
      s.(q := if s.at[t].call.Send? then s.q.(senders := cut(s.q.senders)) else s.q.(receivers := cut(s.q.receivers)),
         at := s.at[t := Top(s.at[t].call)])
    case InterruptSend(position) => s.(q := SendFromISR(s.q, position))
    case InterruptReceive => s.(q := ReceiveFromISR(s.q))
    case ResetQueue => s.(q := Reset(s.q))
  }

  // ---------- the balance of wake-ups ----------

  ghost predicate Apart(l: seq<Task>, woken: set<Task>) {
    && (forall i, j | 0 <= i < j < |l| :: l[i] != l[j])
    && (forall i | 0 <= i < |l| :: l[i] !in woken)
  }

  function Pending(lock: int): nat { if lock > 0 then lock else 0 }

  /** While a task waits to receive, every message is spoken for by a task already woken or by a
      wake-up put off to the unlocking of the queue. */
  ghost predicate ReceiversServed(q: Q) {
    q.receivers != [] ==> q.waiting <= |q.wokenReceivers| + Pending(q.txLock)
  }

  /** While a task waits to send, the same holds of every free slot. */
  ghost predicate SendersServed(q: Q) {
    q.senders != [] ==> q.length - q.waiting <= |q.wokenSenders| + Pending(q.rxLock)
  }

  ghost predicate Sound(q: Q) {
    && 0 < q.length && q.waiting <= q.length
    && q.rxLock >= UNLOCKED && q.txLock >= UNLOCKED
    && Apart(q.senders, q.wokenSenders) && Apart(q.receivers, q.wokenReceivers)
  }

  lemma SendSectionKeeps(q: Q, t: Task, position: Position)
    requires Sound(q) && Legal(q, position) && t !in q.wokenReceivers && t !in q.receivers
    ensures var r := SendSection(q, t, position);
            && Sound(r)
            && (ReceiversServed(q) ==> ReceiversServed(r)) && (SendersServed(q) ==> SendersServed(r))
  {
  }

  lemma ReceiveSectionKeeps(q: Q, t: Task, peek: bool)
    requires Sound(q) && t !in q.wokenSenders && t !in q.senders
    ensures var r := ReceiveSection(q, t, peek);
            && Sound(r)
            && (ReceiversServed(q) ==> ReceiversServed(r)) && (SendersServed(q) ==> SendersServed(r))
  {
  }

  lemma SendFromISRKeeps(q: Q, position: Position)
    requires Sound(q) && Legal(q, position)
    ensures var r := SendFromISR(q, position);
            && Sound(r)
            && (ReceiversServed(q) ==> ReceiversServed(r)) && (SendersServed(q) ==> SendersServed(r))
            && (q.txLock >= 0 ==> r.waiting - r.txLock <= q.waiting - q.txLock)
            && r.waiting >= q.waiting && r.rxLock == q.rxLock
  {
  }

  lemma ReceiveFromISRKeeps(q: Q)
    requires Sound(q)
    ensures var r := ReceiveFromISR(q);
            && Sound(r)
            && (ReceiversServed(q) ==> ReceiversServed(r)) && (SendersServed(q) ==> SendersServed(r))
            && (q.rxLock >= 0 ==> r.waiting + r.rxLock >= q.waiting + q.rxLock)
            && r.waiting <= q.waiting && r.txLock == q.txLock
  {
  }

  lemma {:induction false} UnlockTxKeeps(q: Q)
    requires Sound(q)
    ensures var r := UnlockTx(q);
            && Sound(r) && r.txLock == UNLOCKED
            && (ReceiversServed(q) ==> ReceiversServed(r)) && (SendersServed(q) ==> SendersServed(r))
            && r == q.(txLock := UNLOCKED, receivers := r.receivers, wokenReceivers := r.wokenReceivers)
            && (forall t | t in r.receivers :: t in q.receivers)
            && (forall t | t in r.wokenReceivers :: t in q.wokenReceivers || t in q.receivers)
    decreases |q.receivers|
  {
    if q.txLock > 0 && q.receivers != [] {
      UnlockTxKeeps(WakeReceiver(q).(txLock := q.txLock - 1));
    }
  }

  function Least(a: nat, b: nat): nat { if a < b then a else b }

  /** The first `n` tasks of an event list are woken. */
  ghost predicate Woke(l: seq<Task>, l': seq<Task>, woken: set<Task>, woken': set<Task>, n: nat) {
    && n <= |l| && l' == l[n..]
    && forall t :: t in woken' <==> t in woken || t in l[..n]
  }

  lemma WokeOneMore(l: seq<Task>, l': seq<Task>, woken: set<Task>, woken': set<Task>, n: nat)
    requires l != [] && Woke(l[1..], l', woken + {l[0]}, woken', n)
    ensures Woke(l, l', woken, woken', n + 1)
  {
    assert l[..n + 1] == [l[0]] + l[1..][..n];
  }

  /** Unlocking wakes one receiver for each counted message, those at the head of the list, as far as there are. */
  lemma {:induction false} UnlockTxWakes(q: Q)
    ensures var r := UnlockTx(q);
            Woke(q.receivers, r.receivers, q.wokenReceivers, r.wokenReceivers, Least(Pending(q.txLock), |q.receivers|))
    decreases |q.receivers|
  {
    if q.txLock > 0 && q.receivers != [] {
      var q1 := WakeReceiver(q).(txLock := q.txLock - 1);
      UnlockTxWakes(q1);
      WokeOneMore(q.receivers, UnlockTx(q1).receivers, q.wokenReceivers, UnlockTx(q1).wokenReceivers,
                  Least(Pending(q1.txLock), |q1.receivers|));
    }
  }

  lemma {:induction false} UnlockRxWakes(q: Q)
    ensures var r := UnlockRx(q);
            Woke(q.senders, r.senders, q.wokenSenders, r.wokenSenders, Least(Pending(q.rxLock), |q.senders|))
    decreases |q.senders|
  {
    if q.rxLock > 0 && q.senders != [] {
      var q1 := WakeSender(q).(rxLock := q.rxLock - 1);
      UnlockRxWakes(q1);
      WokeOneMore(q.senders, UnlockRx(q1).senders, q.wokenSenders, UnlockRx(q1).wokenSenders,
                  Least(Pending(q1.rxLock), |q1.senders|));
    }
  }

  lemma {:induction false} UnlockRxKeeps(q: Q)
    requires Sound(q)
    ensures var r := UnlockRx(q);
            && Sound(r) && r.rxLock == UNLOCKED
            && (ReceiversServed(q) ==> ReceiversServed(r)) && (SendersServed(q) ==> SendersServed(r))
            && r == q.(rxLock := UNLOCKED, senders := r.senders, wokenSenders := r.wokenSenders)
            && (forall t | t in r.senders :: t in q.senders)
            && (forall t | t in r.wokenSenders :: t in q.wokenSenders || t in q.senders)
    decreases |q.senders|
  {
    if q.rxLock > 0 && q.senders != [] {
      UnlockRxKeeps(WakeSender(q).(rxLock := q.rxLock - 1));
    }
  }

  /** Locking puts no wake-up off yet, and unlocking undoes it. */
  lemma LockKeeps(q: Q)
    requires Sound(q)
    ensures var r := Lock(q);
            && Sound(r) && r.txLock >= 0 && r.rxLock >= 0
            && Pending(r.txLock) == Pending(q.txLock) && Pending(r.rxLock) == Pending(q.rxLock)
            && (ReceiversServed(q) <==> ReceiversServed(r)) && (SendersServed(q) <==> SendersServed(r))
            && (q.txLock == UNLOCKED && q.rxLock == UNLOCKED ==> UnlockRx(UnlockTx(r)) == q)
  {
  }

  /** Reset keeps the receivers served.  It frees every slot but wakes one sender only, so the senders
      stay served exactly if at most one was waiting or those woken can fill the queue. */
  lemma ResetServes(q: Q)
    requires Sound(q)
    ensures Sound(Reset(q)) && ReceiversServed(Reset(q))
    ensures SendersServed(Reset(q)) <==> ResetCovers(q)
  {
  }

  /** At most one task waits to send, or those woken with the one that the reset wakes can fill the queue. */
  predicate ResetCovers(q: Q) {
    |q.senders| <= 1 || q.length <= |q.wokenSenders| + 1
  }

  /** The count stays within the length, except when a full queue without storage is overwritten. */
  lemma CapacityKept(q: Q, position: Position)
    requires 0 < q.length && q.waiting <= q.length && CanSend(q, position)
    requires position == Overwrite ==> q.length == 1
    ensures Put(q, position).waiting <= q.length <==>
              !(position == Overwrite && q.itemSize == 0 && q.waiting == q.length)
  {
  }

  // ---------- every reachable state ----------

  predicate Holds(p: Place) {
    p.Locked? || p.Checking? || p.Placing? || p.Unlocking? || p.Unlocked?
  }

  /** A task on an event list, or taken off it by an event, is on its way to the next retry. */
  predicate Waiting(p: Place) {
    ((p.Unlocking? || p.Unlocked?) && p.next == Block) || p.Blocked?
  }

  ghost predicate Listed(s: State) {
    && (forall t | t in s.q.receivers :: t in s.at && Waiting(s.at[t]) && s.at[t].call.Receive?)
    && (forall t | t in s.q.senders :: t in s.at && Waiting(s.at[t]) && s.at[t].call.Send?)
    && (forall t | t in s.q.wokenReceivers ::
          t in s.at && (Waiting(s.at[t]) || s.at[t].Top?) && s.at[t].call.Receive?)
    && (forall t | t in s.q.wokenSenders ::
          t in s.at && (Waiting(s.at[t]) || s.at[t].Top?) && s.at[t].call.Send?)
  }

  /** The scheduler is suspended exactly while one task holds the queue's lock. */
  ghost predicate LockHeld(s: State) {
    && (forall t | t in s.at :: Holds(s.at[t]) <==> s.suspender == t)
    && (s.suspender == NOBODY ==> s.q.txLock == UNLOCKED && s.q.rxLock == UNLOCKED)
    && (s.suspender != NOBODY ==>
          && s.suspender >= 0 && s.suspender as Task in s.at && s.q.rxLock >= 0
          && (s.at[s.suspender].Unlocked? <==> s.q.txLock == UNLOCKED))
  }

  ghost predicate Calls(s: State) {
    forall t | t in s.at && s.at[t] != Outside && s.at[t].call.Send? :: Legal(s.q, s.at[t].call.position)
  }

  ghost predicate Shape(s: State) {
    Sound(s.q) && Listed(s) && LockHeld(s) && Calls(s)
  }

  /** No message may be missed between the test for an empty queue and joining the event list. */
  ghost predicate ReceiverSafe(s: State) {
    && ReceiversServed(s.q)
    && forall t | t in s.at && s.at[t].Placing? && s.at[t].call.Receive? :: s.q.waiting <= Pending(s.q.txLock)
  }

  ghost predicate SenderSafe(s: State) {
    && SendersServed(s.q)
    && forall t | t in s.at && s.at[t].Placing? && s.at[t].call.Send? ::
         s.q.length - s.q.waiting <= Pending(s.q.rxLock)
  }

  /** What a pass of task `t` through the critical section may do to the event lists. */
  ghost predicate Settles(q: Q, r: Q, t: Task) {
    && r.length == q.length && r.itemSize == q.itemSize && r.rxLock == q.rxLock && r.txLock == q.txLock
    && (forall u | u in r.receivers :: u in q.receivers)
    && (forall u | u in r.senders :: u in q.senders)
    && (forall u | u in r.wokenReceivers :: u in q.receivers || (u in q.wokenReceivers && u != t))
    && (forall u | u in r.wokenSenders :: u in q.senders || (u in q.wokenSenders && u != t))
  }

  lemma SectionSettles(q: Q, t: Task, call: Call)
    ensures Settles(q, Section(q, t, call), t)
  {
  }

  lemma AfterSection(s: State, t: Task, r: Q, place: Place)
    requires Shape(s) && s.suspender == NOBODY && t in s.at && s.at[t].Top?
    requires Sound(r) && Settles(s.q, r, t)
    requires place == Outside || place == Failed(s.at[t].call)
    ensures var s' := State(r, s.at[t := place], NOBODY);
            && Shape(s')
            && (ReceiversServed(r) ==> ReceiverSafe(s')) && (SendersServed(r) ==> SenderSafe(s'))
  {
    var s' := State(r, s.at[t := place], NOBODY);
    assert t !in s.q.receivers && t !in s.q.senders;
    assert Listed(s');
    assert forall u | u in s.at :: !s.at[u].Placing?;
  }

  lemma EnterKeeps(s: State, t: Task, mayBlock: bool)
    requires Shape(s) && Enabled(s, Enter(t, mayBlock))
    ensures var r := Apply(s, Enter(t, mayBlock));
            && Shape(r)
            && (ReceiverSafe(s) ==> ReceiverSafe(r)) && (SenderSafe(s) ==> SenderSafe(r))
  {
    var call := s.at[t].call;
    assert s.suspender == NOBODY && t !in s.q.receivers && t !in s.q.senders;
    SectionSettles(s.q, t, call);
    if call.Send? {
      SendSectionKeeps(s.q, t, call.position);
    } else {
      ReceiveSectionKeeps(s.q, t, call.peek);
    }
    AfterSection(s, t, Section(s.q, t, call),
                 if Succeeds(s.q, call) || !mayBlock then Outside else Failed(call));
  }

  /** A list stays free of repetitions and of woken tasks when a task joins it. */
  lemma ApartInsert(l: seq<Task>, woken: set<Task>, p: nat, t: Task)
    requires Apart(l, woken) && p <= |l| && t !in l && t !in woken
    ensures Apart(Insert(l, p, t), woken)
    ensures forall u :: u in Insert(l, p, t) <==> u in l || u == t
  {
    var l' := Insert(l, p, t);
    forall i | 0 <= i < |l'|
      ensures l'[i] == if i < p then l[i] else if i == p then t else l[i - 1]
    {
    }
    forall u | u in l || u == t
      ensures u in l'
    {
      if u == t {
        assert l'[p] == t;
      } else {
        var i :| 0 <= i < |l| && l[i] == u;
        assert l'[if i < p then i else i + 1] == u;
      }
    }
  }

  lemma JoinShape(s: State, t: Task, p: nat, r: State)
    requires Shape(s) && Enabled(s, Join(t, p)) && r == Apply(s, Join(t, p))
    ensures Shape(r)
  {
    assert t !in s.q.receivers && t !in s.q.senders && t !in s.q.wokenReceivers && t !in s.q.wokenSenders;
    if s.at[t].call.Send? {
      ApartInsert(s.q.senders, s.q.wokenSenders, p, t);
    } else {
      ApartInsert(s.q.receivers, s.q.wokenReceivers, p, t);
    }
  }

  lemma JoinKeeps(s: State, t: Task, p: nat)
    requires Shape(s) && Enabled(s, Join(t, p))
    ensures var r := Apply(s, Join(t, p));
            && Shape(r)
            && (ReceiverSafe(s) ==> ReceiverSafe(r)) && (SenderSafe(s) ==> SenderSafe(r))
  {
    JoinShape(s, t, p, Apply(s, Join(t, p)));
  }

  lemma ReleaseKeeps(s: State, step: Step)
    requires Shape(s) && Enabled(s, step) && (step.ReleaseTx? || step.ReleaseRx?)
    ensures var r := Apply(s, step);
            && Shape(r)
            && (ReceiverSafe(s) ==> ReceiverSafe(r)) && (SenderSafe(s) ==> SenderSafe(r))
  {
    UnlockTxKeeps(s.q);
    UnlockRxKeeps(s.q);
  }

  lemma TimeOutKeeps(s: State, t: Task, p: nat)
    requires Shape(s) && Enabled(s, TimeOut(t, p))
    ensures var r := Apply(s, TimeOut(t, p));
            && Shape(r)
            && (ReceiverSafe(s) ==> ReceiverSafe(r)) && (SenderSafe(s) ==> SenderSafe(r))
  {
  }

  lemma InterruptKeeps(s: State, step: Step)
    requires Shape(s) && Enabled(s, step) && (step.InterruptSend? || step.InterruptReceive?)
    ensures var r := Apply(s, step);
            && Shape(r)
            && (ReceiverSafe(s) ==> ReceiverSafe(r)) && (SenderSafe(s) ==> SenderSafe(r))
  {
    if step.InterruptSend? {
      SendFromISRKeeps(s.q, step.position);
    } else {
      ReceiveFromISRKeeps(s.q);
    }
  }

  lemma LocalKeeps(s: State, step: Step)
    requires Shape(s) && Enabled(s, step) && (step.Start? || step.Resume?)
    ensures var r := Apply(s, step);
            && Shape(r)
            && (ReceiverSafe(s) ==> ReceiverSafe(r)) && (SenderSafe(s) ==> SenderSafe(r))
  {
  }

  lemma HolderKeeps(s: State, step: Step)
    requires Shape(s) && Enabled(s, step) && (step.CheckTimeOut? || step.CheckQueue?)
    ensures var r := Apply(s, step);
            && Shape(r)
            && (ReceiverSafe(s) ==> ReceiverSafe(r)) && (SenderSafe(s) ==> SenderSafe(r))
  {
  }

  lemma TakeLockKeeps(s: State, step: Step)
    requires Shape(s) && Enabled(s, step) && step.TakeLock?
    ensures var r := Apply(s, step);
            && Shape(r)
            && (ReceiverSafe(s) ==> ReceiverSafe(r)) && (SenderSafe(s) ==> SenderSafe(r))
  {
  }

  lemma ResetKeeps(s: State)
    requires Shape(s) && s.suspender == NOBODY
    ensures Shape(Apply(s, ResetQueue)) && (ReceiverSafe(s) ==> ReceiverSafe(Apply(s, ResetQueue)))
    ensures SenderSafe(Apply(s, ResetQueue)) <==> ResetCovers(s.q)
  {
    ResetServes(s.q);
  }

  lemma StepKeeps(s: State, step: Step)
    requires Shape(s) && Enabled(s, step)
    ensures Shape(Apply(s, step))
    ensures ReceiverSafe(s) ==> ReceiverSafe(Apply(s, step))
    ensures SenderSafe(s) && (step == ResetQueue ==> ResetCovers(s.q)) ==> SenderSafe(Apply(s, step))
  {
    match step
    case Enter(t, mayBlock) => EnterKeeps(s, t, mayBlock);
    case Join(t, p) => JoinKeeps(s, t, p);
    case ReleaseTx(t) => ReleaseKeeps(s, step);
    case ReleaseRx(t) => ReleaseKeeps(s, step);
    case TimeOut(t, p) => TimeOutKeeps(s, t, p);
    case InterruptSend(position) => InterruptKeeps(s, step);
    case InterruptReceive => InterruptKeeps(s, step);
    case ResetQueue => ResetKeeps(s);
    case TakeLock(t) => TakeLockKeeps(s, step);
    case CheckTimeOut(t, expired) => HolderKeeps(s, step);
    case CheckQueue(t) => HolderKeeps(s, step);
    case _ => LocalKeeps(s, step);
  }

  ghost predicate Initial(s: State) {
    && 0 < s.q.length && s.q.waiting <= s.q.length
    && s.q == Q(s.q.length, s.q.itemSize, s.q.waiting, UNLOCKED, UNLOCKED, [], [], {}, {})
    && s.suspender == NOBODY && forall t | t in s.at :: s.at[t] == Outside
  }

  ghost predicate Run(s: State, steps: seq<Step>, r: State)
    decreases |steps|
  {
    if steps == [] then s == r
    else Enabled(s, steps[0]) && Run(Apply(s, steps[0]), steps[1..], r)
  }

  /** Each reset of the run comes when it serves the senders. */
  ghost predicate ResetsCover(s: State, steps: seq<Step>)
    decreases |steps|
  {
    steps == [] ||
    (Enabled(s, steps[0]) && (steps[0] == ResetQueue ==> ResetCovers(s.q)) && ResetsCover(Apply(s, steps[0]), steps[1..]))
  }

  lemma {:induction false} WithoutResets(s: State, steps: seq<Step>, r: State)
    requires Run(s, steps, r) && ResetQueue !in steps
    ensures ResetsCover(s, steps)
    decreases |steps|
  {
    if steps != [] {
      WithoutResets(Apply(s, steps[0]), steps[1..], r);
    }
  }

  lemma {:induction false} RunKeeps(s: State, steps: seq<Step>, r: State)
    requires Shape(s) && ReceiverSafe(s) && Run(s, steps, r)
    ensures Shape(r) && ReceiverSafe(r)
    ensures SenderSafe(s) && ResetsCover(s, steps) ==> SenderSafe(r)
    decreases |steps|
  {
    if steps != [] {
      StepKeeps(s, steps[0]);
      RunKeeps(Apply(s, steps[0]), steps[1..], r);
    }
  }

  /** No lost wake-up, over every interleaving of task and interrupt steps: while a task waits to
      receive, each message is matched by a woken task or a put-off wake-up; and while a task waits to
      send, each free slot is, if each reset came when it serves the senders. */
  lemma NoLostWakeUp(s: State, steps: seq<Step>, r: State)
    requires Initial(s) && Run(s, steps, r)
    ensures r.q.waiting <= r.q.length
    ensures r.q.receivers != [] ==> r.q.waiting <= |r.q.wokenReceivers| + Pending(r.q.txLock)
    ensures ResetsCover(s, steps) && r.q.senders != [] ==>
              r.q.length - r.q.waiting <= |r.q.wokenSenders| + Pending(r.q.rxLock)
  {
    RunKeeps(s, steps, r);
  }

  /** So once all woken tasks have retried and no lock is held, nobody waits in vain. */
  lemma NobodyWaitsInVain(s: State, steps: seq<Step>, r: State)
    requires Initial(s) && Run(s, steps, r) && r.suspender == NOBODY
    ensures r.q.wokenReceivers == {} && r.q.receivers != [] ==> r.q.waiting == 0
    ensures ResetsCover(s, steps) && r.q.wokenSenders == {} && r.q.senders != [] ==> r.q.waiting == r.q.length
    ensures ResetQueue !in steps ==> ResetsCover(s, steps)
  {
    RunKeeps(s, steps, r);
    if ResetQueue !in steps {
      WithoutResets(s, steps, r);
    }
  }

  // ---------- messages are neither lost nor made ----------

  /** Does an item that goes in replace the one that is stored? */
  predicate Replaces(q: Q, position: Position) {
    position == Overwrite && q.itemSize > 0 && q.waiting > 0
  }

  /** A send succeeds if there is room or it overwrites, and adds a message unless it replaces one. */
  predicate Adds(s: State, step: Step) {
    match step
    case Enter(t, _) =>
      && t in s.at && s.at[t].Top? && s.at[t].call.Send?
      && (s.q.waiting < s.q.length || s.at[t].call.position == Overwrite) && !Replaces(s.q, s.at[t].call.position)
    case InterruptSend(position) => (s.q.waiting < s.q.length || position == Overwrite) && !Replaces(s.q, position)
    case _ => false
  }

  /** A receive, but no peek, takes a message if there is one. */
  predicate Takes(s: State, step: Step) {
    match step
    case Enter(t, _) => t in s.at && s.at[t].Top? && s.at[t].call == Receive(false) && s.q.waiting > 0
    case InterruptReceive => s.q.waiting > 0
    case _ => false
  }

  function Sent(s: State, steps: seq<Step>, r: State): nat
    requires Run(s, steps, r)
    decreases |steps|
  {
    if steps == [] then 0 else (if Adds(s, steps[0]) then 1 else 0) + Sent(Apply(s, steps[0]), steps[1..], r)
  }

  function Received(s: State, steps: seq<Step>, r: State): nat
    requires Run(s, steps, r)
    decreases |steps|
  {
    if steps == [] then 0 else (if Takes(s, steps[0]) then 1 else 0) + Received(Apply(s, steps[0]), steps[1..], r)
  }

  /** The messages that resets throw away */
  function Discarded(s: State, steps: seq<Step>, r: State): nat
    requires Run(s, steps, r)
    decreases |steps|
  {
    if steps == [] then 0
    else (if steps[0] == ResetQueue then s.q.waiting else 0) + Discarded(Apply(s, steps[0]), steps[1..], r)
  }

  lemma StepCount(s: State, step: Step)
    requires Enabled(s, step)
    ensures var r := Apply(s, step);
            && (step == ResetQueue ==> r.q.waiting == 0)
            && (step != ResetQueue ==>
                  r.q.waiting == s.q.waiting + (if Adds(s, step) then 1 else 0) - (if Takes(s, step) then 1 else 0))
  {
    match step
    case ReleaseTx(t) => UnlockTxCount(s.q);
    case ReleaseRx(t) => UnlockRxCount(s.q);
    case _ =>
  }

  lemma {:induction false} UnlockTxCount(q: Q)
    ensures UnlockTx(q).waiting == q.waiting
    decreases |q.receivers|
  {
    if q.txLock > 0 && q.receivers != [] {
      UnlockTxCount(WakeReceiver(q).(txLock := q.txLock - 1));
    }
  }

  lemma {:induction false} UnlockRxCount(q: Q)
    ensures UnlockRx(q).waiting == q.waiting
    decreases |q.senders|
  {
    if q.rxLock > 0 && q.senders != [] {
      UnlockRxCount(WakeSender(q).(rxLock := q.rxLock - 1));
    }
  }

  /** Over every run, of a queue or a semaphore, the messages there at the end and those received or discarded by
      resets are those there at the start and those sent. */
  lemma {:induction false} MessagesBalance(s: State, steps: seq<Step>, r: State)
    requires Run(s, steps, r)
    ensures r.q.waiting + Received(s, steps, r) + Discarded(s, steps, r) == s.q.waiting + Sent(s, steps, r)
    ensures ResetQueue !in steps ==> Discarded(s, steps, r) == 0
    decreases |steps|
  {
    if steps != [] {
      StepCount(s, steps[0]);
      MessagesBalance(Apply(s, steps[0]), steps[1..], r);
    }
  }

  // ---------- a run in which a reset strands a sender ----------

  lemma {:induction false} RunOn(s: State, first: seq<Step>, m: State, rest: seq<Step>, r: State)
    requires Run(s, first, m) && Run(m, rest, r)
    ensures Run(s, first + rest, r)
    decreases |first|
  {
    if first == [] {
      assert first + rest == rest;
    } else {
      RunOn(Apply(s, first[0]), first[1..], m, rest, r);
      assert (first + rest)[0] == first[0] && (first + rest)[1..] == first[1..] + rest;
    }
  }

  lemma RunOne(s: State, step: Step, m: State, rest: seq<Step>, r: State)
    requires Enabled(s, step) && Apply(s, step) == m && Run(m, rest, r)
    ensures Run(s, [step] + rest, r)
  {
    assert ([step] + rest)[1..] == rest;
  }

  /** The steps by which task `t` finds the queue full, locks it and finds it still full */
  function FindsFull(t: Task): seq<Step> {
    [Start(t, Send(ToBack))] + ([Enter(t, true)] + ([TakeLock(t)] + ([CheckTimeOut(t, false)] + ([CheckQueue(t)] + []))))
  }

  /** The steps by which it then joins the list of senders and unlocks the queue */
  function JoinsSenders(t: Task, p: nat): seq<Step> {
    [Join(t, p)] + ([ReleaseTx(t)] + ([ReleaseRx(t)] + []))
  }

  ghost predicate FullAndUnlocked(q: Q, t: Task) {
    && q.txLock == UNLOCKED && q.rxLock == UNLOCKED && q.waiting == q.length
    && t !in q.wokenSenders && t !in q.wokenReceivers
  }

  lemma SenderFindsFull(s: State, t: Task, r: State)
    requires s.suspender == NOBODY && t in s.at && s.at[t] == Outside && FullAndUnlocked(s.q, t)
    requires r == State(s.q.(txLock := 0, rxLock := 0), s.at[t := Placing(Send(ToBack))], t)
    ensures Run(s, FindsFull(t), r)
  {
    var call := Send(ToBack);
    var s1 := s.(at := s.at[t := Top(call)]);
    var s2 := s.(at := s.at[t := Failed(call)]);
    var s3 := State(r.q, s.at[t := Locked(call)], t);
    var s4 := State(r.q, s.at[t := Checking(call)], t);
    assert Section(s.q, t, call) == s.q;
    assert s1.at[t := Failed(call)] == s2.at;
    assert s2.at[t := Locked(call)] == s3.at;
    assert s3.at[t := Checking(call)] == s4.at;
    assert s4.at[t := Placing(call)] == r.at;
    RunOne(s4, CheckQueue(t), r, [], r);
    RunOne(s3, CheckTimeOut(t, false), s4, [CheckQueue(t)] + [], r);
    RunOne(s2, TakeLock(t), s3, [CheckTimeOut(t, false)] + ([CheckQueue(t)] + []), r);
    RunOne(s1, Enter(t, true), s2, [TakeLock(t)] + ([CheckTimeOut(t, false)] + ([CheckQueue(t)] + [])), r);
    RunOne(s, Start(t, call), s1,
           [Enter(t, true)] + ([TakeLock(t)] + ([CheckTimeOut(t, false)] + ([CheckQueue(t)] + []))), r);
  }

  lemma SenderJoins(s: State, t: Task, p: nat, r: State)
    requires s.suspender == t && t in s.at && s.at[t] == Placing(Send(ToBack)) && p == |s.q.senders|
    requires s.q.txLock == 0 && s.q.rxLock == 0
    requires r == State(s.q.(txLock := UNLOCKED, rxLock := UNLOCKED, senders := s.q.senders + [t]),
                        s.at[t := Blocked(Send(ToBack))], NOBODY)
    ensures Run(s, JoinsSenders(t, p), r)
  {
    var call := Send(ToBack);
    var s1 := s.(q := s.q.(senders := s.q.senders + [t]), at := s.at[t := Unlocking(call, Block)]);
    var s2 := State(s1.q.(txLock := UNLOCKED), s.at[t := Unlocked(call, Block)], s.suspender);
    assert Insert(s.q.senders, p, t) == s.q.senders + [t];
    assert s1.at[t := Unlocked(call, Block)] == s2.at;
    assert s2.at[t := Blocked(call)] == r.at;
    RunOne(s2, ReleaseRx(t), r, [], r);
    RunOne(s1, ReleaseTx(t), s2, [ReleaseRx(t)] + [], r);
    RunOne(s, Join(t, p), s1, [ReleaseTx(t)] + ([ReleaseRx(t)] + []), r);
  }

  /** A task that wants to send to a full queue blocks at the end of the list of senders. */
  lemma SenderBlocks(s: State, t: Task, p: nat, r: State)
    requires s.suspender == NOBODY && t in s.at && s.at[t] == Outside && FullAndUnlocked(s.q, t) && p == |s.q.senders|
    requires r == s.(q := s.q.(senders := s.q.senders + [t]), at := s.at[t := Blocked(Send(ToBack))])
    ensures Run(s, FindsFull(t) + JoinsSenders(t, p), r)
  {
    var m := State(s.q.(txLock := 0, rxLock := 0), s.at[t := Placing(Send(ToBack))], t);
    assert m.at[t := Blocked(Send(ToBack))] == r.at;
    SenderFindsFull(s, t, m);
    SenderJoins(m, t, p, r);
    RunOn(s, FindsFull(t), m, JoinsSenders(t, p), r);
  }

  /** The first sender runs on after a reset and finds a free slot. */
  lemma FirstSenderPasses(s: State, r: State)
    requires s.q == Q(2, 4, 2, UNLOCKED, UNLOCKED, [1, 2], [], {}, {}) && s.suspender == NOBODY
    requires 1 in s.at && s.at[1] == Blocked(Send(ToBack))
    requires r == State(Q(2, 4, 1, UNLOCKED, UNLOCKED, [2], [], {}, {}), s.at[1 := Outside], NOBODY)
    ensures Run(s, [ResetQueue] + ([Resume(1)] + ([Enter(1, false)] + [])), r)
  {
    var s1 := s.(q := Q(2, 4, 0, UNLOCKED, UNLOCKED, [2], [], {1}, {}));
    var s2 := s1.(at := s.at[1 := Top(Send(ToBack))]);
    assert Section(s1.q, 1, Send(ToBack)) == r.q;
    assert s2.at[1 := Outside] == r.at;
    RunOne(s2, Enter(1, false), r, [], r);
    RunOne(s1, Resume(1), s2, [Enter(1, false)] + [], r);
    RunOne(s, ResetQueue, s1, [Resume(1)] + ([Enter(1, false)] + []), r);
  }

  /** Two tasks block on a full queue of two, the queue is reset, and the one that was woken has sent: the other
      one waits at a free slot and nobody is left to wake it. */
  lemma ResetStrandsASender() returns (s: State, steps: seq<Step>, r: State)
    ensures Initial(s) && Run(s, steps, r)
    ensures r.q.senders == [2] && r.q.waiting < r.q.length && r.q.wokenSenders == {} && r.suspender == NOBODY
  {
    s := State(Q(2, 4, 2, UNLOCKED, UNLOCKED, [], [], {}, {}), map[1 := Outside, 2 := Outside], NOBODY);
    var s1 := s.(q := s.q.(senders := [1]), at := s.at[1 := Blocked(Send(ToBack))]);
    var s2 := s1.(q := s.q.(senders := [1, 2]), at := s1.at[2 := Blocked(Send(ToBack))]);
    var last := [ResetQueue] + ([Resume(1)] + ([Enter(1, false)] + []));
    r := State(Q(2, 4, 1, UNLOCKED, UNLOCKED, [2], [], {}, {}), s2.at[1 := Outside], NOBODY);
    SenderBlocks(s, 1, 0, s1);
    SenderBlocks(s1, 2, 1, s2);
    FirstSenderPasses(s2, r);
    RunOn(s1, FindsFull(2) + JoinsSenders(2, 1), s2, last, r);
    RunOn(s, FindsFull(1) + JoinsSenders(1, 0), s1, (FindsFull(2) + JoinsSenders(2, 1)) + last, r);
    steps := (FindsFull(1) + JoinsSenders(1, 0)) + ((FindsFull(2) + JoinsSenders(2, 1)) + last);
  }
}
