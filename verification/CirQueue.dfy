/** cir_queue_t as an object whose fields the calls of one caller update in
    place. The statements are those of pokaqueue.c in its order. */
module CirQueueObject {
  import opened RingBuffer
  import opened BoundedFifo
  import opened SoloCaller

  class CirQueue {
    const data: array<Ptr>
    var front: nat
    var rear: nat
    var count: int
    var locked: bool
    var acquired: nat  // how often the mutex has been taken
    var usable: bool

    ghost function Snapshot(): Ring
      reads this, data
    {
      Ring(data[..], front, rear, count)
    }

    /** Between calls: the mutex is free and the ring represents its contents. */
    ghost predicate Valid()
      reads this, data
    {
      && usable && !locked
      && data.Length == QUE_SIZE
      && WellFormed(Snapshot())
      && Represents(Snapshot(), Items(Snapshot()))
    }

    ghost function Contents(): (q: seq<Ptr>)
      requires Valid()
      reads this, data
      ensures |q| <= QUE_SIZE - 1
      ensures count == |q|
    {
      Items(Snapshot())
    }

    constructor ()
      ensures Valid() && fresh(data)
      ensures Contents() == [] && front == 0 && acquired == 0
    {
      data := new Ptr[QUE_SIZE](_ => NULL);
      front, rear := 0, 0;
      count := 0;
      locked, acquired, usable := false, 0, true;
      new;
      assert Snapshot().data == seq(QUE_SIZE, _ => NULL);
      EmptyRepresents(QUE_SIZE);
      ItemsOfRepresentation(Snapshot(), []);
    }

    /** pthread_mutex_lock by the only caller, and its counterpart. */
    method Lock()
      requires !locked
      modifies this`locked, this`acquired
      ensures locked && acquired == old(acquired) + 1
    {
      locked := true;
      acquired := acquired + 1;
    }

    method Unlock()
      requires locked
      modifies this`locked
      ensures !locked
    {
      locked := false;
    }

    predicate IsEmptyCirQueue()
      reads this
    {
      front == rear
    }

    predicate IsFullCirQueue()
      reads this
    {
      rear == (QUE_SIZE - 1 + front) % QUE_SIZE
    }

    /** The two index tests answer for the contents. */
    lemma TestsAreAboutContents()
      requires Valid()
      ensures IsEmptyCirQueue() <==> Contents() == []
      ensures IsFullCirQueue() <==> |Contents()| == QUE_SIZE - 1
    {
      TestsDecide(Snapshot(), Contents());
    }

    /** Blocked: the caller sleeps on notfull, the mutex released again. */
    method PushCirQueue(x: Ptr) returns (o: Outcome)
      requires Valid()
      modifies this`rear, this`count, this`locked, this`acquired, data
      ensures Valid() && acquired == old(acquired) + 1
      ensures (Contents(), o) == FifoCall(old(Contents()), Push(x), QUE_SIZE - 1)
      ensures (Snapshot(), o) == RingCall(old(Snapshot()), Push(x))
    {
      ghost var r, q := Snapshot(), Contents();
      RingCallRefines(r, q, Push(x));
      Lock();
      if IsFullCirQueue() {
        Unlock();
        return Blocked;
      }
      data[rear] := x;
      IndexExpressions(rear, QUE_SIZE);
      rear := (rear + 1) % QUE_SIZE;
      count := count + 1;
      Unlock();
      assert Snapshot() == PushBody(r, x);
      ItemsOfRepresentation(Snapshot(), q + [x]);
      o := Returned(Sucess);
    }

    /** Blocked: the caller sleeps on notempty, the mutex released again. */
    method PopCirQueue() returns (o: Outcome)
      requires Valid()
      modifies this`front, this`count, this`locked, this`acquired, data
      ensures Valid() && acquired == old(acquired) + 1
      ensures (Contents(), o) == FifoCall(old(Contents()), Pop, QUE_SIZE - 1)
      ensures (Snapshot(), o) == RingCall(old(Snapshot()), Pop)
    {
      ghost var r, q := Snapshot(), Contents();
      RingCallRefines(r, q, Pop);
      Lock();
      if IsEmptyCirQueue() {
        Unlock();
        return Blocked;
      }
      var temp := data[front];
      data[front] := NULL;
      IndexExpressions(front, QUE_SIZE);
      front := (front + 1) % QUE_SIZE;
      count := count - 1;
      Unlock();
      assert Snapshot() == PopBody(r);
      ItemsOfRepresentation(Snapshot(), q[1..]);
      o := Returned(Got(temp));
    }

    method PopNotwaitCirQueue() returns (o: Outcome)
      requires Valid()
      modifies this`front, this`count, this`locked, this`acquired, data
      ensures Valid() && acquired == old(acquired) + 1
      ensures (Contents(), o) == FifoCall(old(Contents()), TryPop, QUE_SIZE - 1)
      ensures (Snapshot(), o) == RingCall(old(Snapshot()), TryPop)
    {
      ghost var r, q := Snapshot(), Contents();
      RingCallRefines(r, q, TryPop);
      Lock();
      if IsEmptyCirQueue() {
        Unlock();
        return Returned(Nothing);
      }
      var temp := data[front];
      data[front] := NULL;
      IndexExpressions(front, QUE_SIZE);
      front := (front + 1) % QUE_SIZE;
      count := count - 1;
      Unlock();
      assert Snapshot() == PopBody(r);
      ItemsOfRepresentation(Snapshot(), q[1..]);
      o := Returned(Got(temp));
    }

    /** free_data_cir_queue; freed lists the calls of free() so far. */
    static method FreeDataCirQueue(freed: seq<Ptr>, x: Ptr) returns (freed': seq<Ptr>)
      ensures freed' == if x == NULL then freed else freed + [x]
    {
      freed' := freed;
      if x != NULL {
        freed' := freed + [x];
      }
    }

    /** The loop of destroy_cir_queue: it ends for every front and rear, visits
        the slots of the live interval once each, in FIFO order, and hands the
        non-NULL pointers it finds there to free. */
    method FreeLiveSlots() returns (freed: seq<Ptr>, ghost visited: seq<nat>)
      requires data.Length == QUE_SIZE && WellFormed(Snapshot())
      ensures freed == Freed(Items(Snapshot()))
      ensures visited == LiveSlots(Snapshot())
    {
      var i := front;
      freed, visited := [], [];
      ghost var r, k := Snapshot(), 0;
      assert Items(r)[..0] == [];
      while i != rear
        invariant 0 <= k <= Len(r) && i == Slot(r.front, k, QUE_SIZE)
        invariant visited == LiveSlots(r)[..k]
        invariant freed == Freed(Items(r)[..k])
        decreases Len(r) - k
      {
        WalkStep(r, k);
        FreedNext(Items(r), k);
        freed := FreeDataCirQueue(freed, data[i]);
        visited := visited + [i];
        i := (i + 1) % QUE_SIZE;
        k := k + 1;
      }
      WalkStep(r, k);
      assert Items(r)[..k] == Items(r);
    }

    /** Frees what is left. The ring itself stays as it was, but must not be
        used again. */
    method DestroyCirQueue() returns (freed: seq<Ptr>, ghost visited: seq<nat>)
      requires Valid()
      modifies this`locked, this`acquired, this`usable
      ensures !usable && !locked && acquired == old(acquired) + 1
      ensures freed == Freed(old(Contents()))
      ensures visited == LiveSlots(Snapshot())
    {
      Lock();
      freed, visited := FreeLiveSlots();
      Unlock();
      usable := false;
    }
  }
}
