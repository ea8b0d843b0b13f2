/**
  The queue object (FreeRTOS/Source/queue.c): a ring buffer with a write index, a read index that
  trails one slot behind the next item, event lists and lock counts.
*/
module Queues {
  import opened QueueProtocol
  import opened TaskLists

  /** Index `i` taken modulo the length `n`, for i up to twice the length. */
  function Around(n: nat, i: nat): nat
    requires 0 < n && i <= 2 * n
  {
    if i == 2 * n then 0 else if i >= n then i - n else i
  }

  /** The `count` items behind read index `r`, next to be received first. */
  ghost function Stored<T>(store: seq<T>, r: nat, count: nat): (s: seq<T>)
    requires r < |store| && count <= |store|
    ensures |s| == count && forall k | 0 <= k < count :: s[k] == store[Around(|store|, r + 1 + k)]
  {
    seq(count, k requires 0 <= k < count => store[Around(|store|, r + 1 + k)])
  }

  lemma StoredBack<T>(store: seq<T>, r: nat, count: nat, x: T)
    requires r < |store| && count < |store|
    ensures Stored(store[Around(|store|, r + 1 + count) := x], r, count + 1) == Stored(store, r, count) + [x]
  {
  }

  lemma StoredFront<T>(store: seq<T>, r: nat, count: nat, x: T)
    requires r < |store| && count < |store|
    ensures var r' := if r == 0 then |store| - 1 else r - 1;
            Stored(store[r := x], r', count + 1) == [x] + Stored(store, r, count)
  {
    var r' := if r == 0 then |store| - 1 else r - 1;
    var s := Stored(store[r := x], r', count + 1);
    forall k | 0 <= k < count
      ensures s[k + 1] == Stored(store, r, count)[k]
    {
      assert Around(|store|, r' + 1 + (k + 1)) == Around(|store|, r + 1 + k);
    }
  }

  lemma StoredRest<T>(store: seq<T>, r: nat, count: nat)
    requires r < |store| && 0 < count <= |store|
    ensures Stored(store, Around(|store|, r + 1), count - 1) == Stored(store, r, count)[1..]
  {
  }

  class Queue<T(0)> {
    const length: nat
    const itemSize: nat      // zero for semaphores, which store nothing
    const storage: array<T>
    var writeTo: nat         // next slot to write at the back
    var readFrom: nat        // slot before the next item to read
    var waiting: nat
    var rxLock: int
    var txLock: int
    var senders: seq<Task>
    var receivers: seq<Task>
    ghost var wokenSenders: set<Task>
    ghost var wokenReceivers: set<Task>

    /** Write index = read index + 1 + number of items, modulo the length. */
    ghost predicate Valid()
      reads this
    {
      && length > 0
      && (itemSize > 0 ==>
            && storage.Length == length && writeTo < length && readFrom < length && waiting <= length
            && writeTo == Around(length, readFrom + 1 + waiting))
    }

    /** The stored items, next to be received first. */
    ghost function Contents(): seq<T>
      requires Valid() && itemSize > 0
      reads this, storage
    {
      Stored(storage[..], readFrom, waiting)
    }

    ghost function View(): Q
      reads this
    {
      Q(length, itemSize, waiting, rxLock, txLock, senders, receivers, wokenSenders, wokenReceivers)
    }

    constructor (length: nat, itemSize: nat)
      requires length > 0
      ensures Valid() && this.length == length && this.itemSize == itemSize && fresh(storage)
      ensures View() == Q(length, itemSize, 0, UNLOCKED, UNLOCKED, [], [], {}, {})
    {
      this.length := length;
      this.itemSize := itemSize;
      storage := new T[if itemSize > 0 then length else 0];
      writeTo, readFrom, waiting := 0, length - 1, 0;
      rxLock, txLock := UNLOCKED, UNLOCKED;
      senders, receivers := [], [];
      wokenSenders, wokenReceivers := {}, {};
    }

    /** xQueueGenericReset of a queue in use */
    method Reset()
      requires Valid()
      modifies this
      ensures Valid() && View() == QueueProtocol.Reset(old(View()))
      ensures waiting == 0 && rxLock == UNLOCKED && txLock == UNLOCKED && receivers == old(receivers)
      ensures FirstWoken(old(senders), senders, old(wokenSenders), wokenSenders)
      ensures itemSize > 0 ==> Contents() == []
    {
      waiting := 0;
      writeTo := 0;
      readFrom := length - 1;
      rxLock, txLock := UNLOCKED, UNLOCKED;
      if senders != [] {
        RemoveSender();
      }
    }

    /** The first task of an event list, if there is one, is woken. */
    static ghost predicate FirstWoken(l: seq<Task>, l': seq<Task>, woken: set<Task>, woken': set<Task>) {
      if l == [] then l' == [] && woken' == woken else l' == l[1..] && woken' == woken + {l[0]}
    }

    /** xTaskRemoveFromEventList on the waiting senders */
    method RemoveSender()
      requires senders != []
      modifies this`senders, this`wokenSenders
      ensures View() == WakeSender(old(View()))
      ensures FirstWoken(old(senders), senders, old(wokenSenders), wokenSenders)
    {
      wokenSenders := wokenSenders + {senders[0]};
      senders := senders[1..];
    }

    method RemoveReceiver()
      requires receivers != []
      modifies this`receivers, this`wokenReceivers
      ensures View() == WakeReceiver(old(View()))
      ensures FirstWoken(old(receivers), receivers, old(wokenReceivers), wokenReceivers)
    {
      wokenReceivers := wokenReceivers + {receivers[0]};
      receivers := receivers[1..];
    }

    /** The queueSEND_TO_BACK branch of prvCopyDataToQueue */
    method CopyToBack(item: T)
      requires Valid() && itemSize > 0 && waiting < length
      modifies this`writeTo, this`waiting, storage
      ensures Valid() && waiting == old(waiting) + 1
      ensures Contents() == old(Contents()) + [item]
    {
      StoredBack(storage[..], readFrom, waiting, item);
      storage[writeTo] := item;
      writeTo := writeTo + 1;
      if writeTo >= length {
        writeTo := 0;
      }
      waiting := waiting + 1;
    }

    /** The other branch, which writes behind the read index */
    method CopyToFront(item: T, overwrite: bool)
      requires Valid() && itemSize > 0
      requires if overwrite then length == 1 else waiting < length
      modifies this`readFrom, this`waiting, storage
      ensures Valid() && waiting == if overwrite && old(waiting) > 0 then old(waiting) else old(waiting) + 1
      ensures Contents() == if overwrite then [item] else [item] + old(Contents())
    {
      if !overwrite {
        StoredFront(storage[..], readFrom, waiting, item);
      }
      storage[readFrom] := item;
      if readFrom == 0 {
        readFrom := length - 1;
      } else {
        readFrom := readFrom - 1;
      }
      if overwrite && waiting > 0 {
        waiting := waiting - 1;
      }
      waiting := waiting + 1;
    }

    /** prvCopyDataToQueue */
    method CopyDataTo(item: T, position: Position)
      requires Valid() && (waiting < length || position == Overwrite)
      requires position == Overwrite ==> length == 1
      modifies this`writeTo, this`readFrom, this`waiting, storage
      ensures Valid() && View() == Put(old(View()), position)
      ensures waiting == old(waiting) + if position == Overwrite && itemSize > 0 && old(waiting) > 0 then 0 else 1
      ensures itemSize > 0 ==>
                Contents() == match position
                  case ToBack => old(Contents()) + [item]
                  case ToFront => [item] + old(Contents())
                  case Overwrite => [item]
    {
      if itemSize == 0 {
        waiting := waiting + 1;
      } else if position == ToBack {
        CopyToBack(item);
      } else {
        CopyToFront(item, position == Overwrite);
      }
    }

    /** prvCopyDataFromQueue: step the read index and copy the item there. */
    method CopyDataFrom() returns (item: T)
      requires Valid() && itemSize > 0 && waiting > 0
      modifies this`readFrom
      ensures item == old(Contents())[0]
      ensures readFrom == Around(length, old(readFrom) + 1)
    {
      readFrom := readFrom + 1;
      if readFrom >= length {
        readFrom := 0;
      }
      item := storage[readFrom];
    }

    /** The critical section of xQueueGenericSend: `sent` tells whether task `t` is done. */
    method TrySend(t: Task, item: T, position: Position) returns (sent: bool)
      requires Valid() && (position == Overwrite ==> length == 1)
      modifies this, storage
      ensures Valid() && View() == SendSection(old(View()), t, position)
      ensures sent <==> old(waiting) < length || position == Overwrite
      ensures waiting == old(waiting) + if sent && !(position == Overwrite && itemSize > 0 && old(waiting) > 0) then 1 else 0
      ensures senders == old(senders) && wokenSenders == old(wokenSenders) - {t}
      ensures if sent then FirstWoken(old(receivers), receivers, old(wokenReceivers) - {t}, wokenReceivers)
              else receivers == old(receivers) && wokenReceivers == old(wokenReceivers) - {t}
      ensures itemSize > 0 ==>
                Contents() == if !sent then old(Contents()) else match position
                  case ToBack => old(Contents()) + [item]
                  case ToFront => [item] + old(Contents())
                  case Overwrite => [item]
    {
      wokenSenders, wokenReceivers := wokenSenders - {t}, wokenReceivers - {t};
      sent := waiting < length || position == Overwrite;
      if sent {
        CopyDataTo(item, position);
        if receivers != [] {
          RemoveReceiver();
        }
      }
    }

    /** The critical section of xQueueGenericReceive. */
    method TryReceive(t: Task, peek: bool) returns (got: bool, item: T)
      requires Valid()
      modifies this
      ensures Valid() && View() == ReceiveSection(old(View()), t, peek)
      ensures got <==> old(waiting) > 0
      ensures waiting == old(waiting) - if got && !peek then 1 else 0
      ensures if got && !peek then FirstWoken(old(senders), senders, old(wokenSenders) - {t}, wokenSenders)
              else senders == old(senders) && wokenSenders == old(wokenSenders) - {t}
      ensures if got && peek then FirstWoken(old(receivers), receivers, old(wokenReceivers) - {t}, wokenReceivers)
              else receivers == old(receivers) && wokenReceivers == old(wokenReceivers) - {t}
      ensures itemSize > 0 ==>
                && (got ==> item == old(Contents())[0])
                && Contents() == if got && !peek then old(Contents())[1..] else old(Contents())
    {
      item := *;
      wokenSenders, wokenReceivers := wokenSenders - {t}, wokenReceivers - {t};
      got := waiting > 0;
      if got {
        item := TakeItem(peek);
        if !peek {
          if senders != [] {
            RemoveSender();
          }
        } else {
          if receivers != [] {
            RemoveReceiver();
          }
        }
      }
    }

    /** Copies the first item out, and removes it unless it is only peeked at. */
    method TakeItem(peek: bool) returns (item: T)
      requires Valid() && waiting > 0
      modifies this`readFrom, this`waiting
      ensures Valid() && waiting == if peek then old(waiting) else old(waiting) - 1
      ensures itemSize > 0 ==>
                item == old(Contents())[0] && Contents() == if peek then old(Contents()) else old(Contents())[1..]
    {
      item := *;
      var original := readFrom;
      if itemSize > 0 {
        StoredRest(storage[..], readFrom, waiting);
        item := CopyDataFrom();
      }
      if !peek {
        waiting := waiting - 1;
      } else {
        readFrom := original;
      }
    }

    /** xQueueGenericSendFromISR; for a semaphore also xQueueGiveFromISR */
    method SendFromISR(item: T, position: Position) returns (sent: bool)
      requires Valid() && (position == Overwrite ==> length == 1)
      modifies this, storage
      ensures Valid() && View() == QueueProtocol.SendFromISR(old(View()), position)
      ensures sent <==> old(waiting) < length || position == Overwrite
      ensures waiting == old(waiting) + if sent && !(position == Overwrite && itemSize > 0 && old(waiting) > 0) then 1 else 0
      ensures txLock == old(txLock) + if sent && old(txLock) != UNLOCKED then 1 else 0
      ensures if sent && old(txLock) == UNLOCKED
              then FirstWoken(old(receivers), receivers, old(wokenReceivers), wokenReceivers)
              else receivers == old(receivers) && wokenReceivers == old(wokenReceivers)
      ensures itemSize > 0 ==>
                Contents() == if !sent then old(Contents()) else match position
                  case ToBack => old(Contents()) + [item]
                  case ToFront => [item] + old(Contents())
                  case Overwrite => [item]
    {
      sent := waiting < length || position == Overwrite;
      if sent {
        CopyDataTo(item, position);
        if txLock == UNLOCKED {
          if receivers != [] {
            RemoveReceiver();
          }
        } else {
          txLock := txLock + 1;
        }
      }
    }

    /** xQueueReceiveFromISR */
    method ReceiveFromISR() returns (got: bool, item: T)
      requires Valid()
      modifies this
      ensures Valid() && View() == QueueProtocol.ReceiveFromISR(old(View()))
      ensures got <==> old(waiting) > 0
      ensures waiting == old(waiting) - if got then 1 else 0
      ensures rxLock == old(rxLock) + if got && old(rxLock) != UNLOCKED then 1 else 0
      ensures if got && old(rxLock) == UNLOCKED then FirstWoken(old(senders), senders, old(wokenSenders), wokenSenders)
              else senders == old(senders) && wokenSenders == old(wokenSenders)
      ensures itemSize > 0 ==>
                && (got ==> item == old(Contents())[0])
                && Contents() == if got then old(Contents())[1..] else []
    {
      item := *;
      got := waiting > 0;
      if got {
        item := TakeItem(false);
        if rxLock == UNLOCKED {
          if senders != [] {
            RemoveSender();
          }
        } else {
          rxLock := rxLock + 1;
        }
      }
    }

    /** xQueuePeekFromISR */
    method PeekFromISR() returns (got: bool, item: T)
      requires Valid() && itemSize > 0
      modifies this`readFrom
      ensures Valid() && readFrom == old(readFrom) && got == (waiting > 0)
      ensures got ==> item == Contents()[0]
    {
      item := *;
      got := waiting > 0;
      if got {
        var original := readFrom;
        item := CopyDataFrom();
        readFrom := original;
      }
    }

    /** prvLockQueue: interrupts put their wake-ups off from now on, counts that run already go on, and if
        neither did, unlocking the queue at once undoes it. */
    method LockQueue()
      requires Sound(View())
      modifies this`rxLock, this`txLock
      ensures View() == Lock(old(View())) && Sound(View()) && txLock >= 0 && rxLock >= 0
      ensures Pending(txLock) == Pending(old(txLock)) && Pending(rxLock) == Pending(old(rxLock))
      ensures old(ReceiversServed(View())) <==> ReceiversServed(View())
      ensures old(SendersServed(View())) <==> SendersServed(View())
      ensures old(txLock) == UNLOCKED && old(rxLock) == UNLOCKED ==> UnlockRx(UnlockTx(View())) == old(View())
    {
      LockKeeps(View());
      if rxLock == UNLOCKED {
        rxLock := 0;
      }
      if txLock == UNLOCKED {
        txLock := 0;
      }
    }

    /** First critical section of prvUnlockQueue */
    method UnlockTransmit()
      modifies this`txLock, this`receivers, this`wokenReceivers
      ensures View() == UnlockTx(old(View())) && txLock == UNLOCKED && waiting == old(waiting)
      ensures Woke(old(receivers), receivers, old(wokenReceivers), wokenReceivers,
                   Least(Pending(old(txLock)), |old(receivers)|))
    {
      UnlockTxWakes(View());
      UnlockTxCount(View());
      while txLock > 0
        invariant UnlockTx(View()) == UnlockTx(old(View()))
      {
        if receivers == [] {
          break;
        }
        RemoveReceiver();
        txLock := txLock - 1;
      }
      txLock := UNLOCKED;
    }

    /** Second critical section of prvUnlockQueue */
    method UnlockReceive()
      modifies this`rxLock, this`senders, this`wokenSenders
      ensures View() == UnlockRx(old(View())) && rxLock == UNLOCKED && waiting == old(waiting)
      ensures Woke(old(senders), senders, old(wokenSenders), wokenSenders, Least(Pending(old(rxLock)), |old(senders)|))
    {
      UnlockRxWakes(View());
      UnlockRxCount(View());
      while rxLock > 0
        invariant UnlockRx(View()) == UnlockRx(old(View()))
      {
        if senders == [] {
          break;
        }
        RemoveSender();
        rxLock := rxLock - 1;
      }
      rxLock := UNLOCKED;
    }
  }
}
