/** The fields of cir_queue_t as one value, the statements of pokaqueue.c as
    functions on it, and the relation that says which FIFO contents it holds.
    Everything is stated for any number of slots from two upwards; the
    repository's own number is QUE_SIZE. */
module RingBuffer {

  /** A void pointer; only identity and comparison with NULL matter. */
  type Ptr = nat

  const NULL: Ptr := 0

  const QUE_SIZE: nat := 2000

  datatype Ring = Ring(data: seq<Ptr>, front: nat, rear: nat, count: int)

  predicate WellFormed(r: Ring) {
    2 <= |r.data| && r.front < |r.data| && r.rear < |r.data|
  }

  // ---------------------------------------------------------------- indices

  /** The slot after i. */
  function Next(i: nat, n: nat): (k: nat)
    requires i < n
    ensures k < n
  {
    if i + 1 < n then i + 1 else 0
  }

  /** The slot before i. */
  function Before(i: nat, n: nat): (k: nat)
    requires i < n
    ensures k < n
  {
    if i == 0 then n - 1 else i - 1
  }

  /** They are the source's index expressions, in which no operand is negative. */
  lemma IndexExpressions(i: nat, n: nat)
    requires i < n
    ensures Next(i, n) == (i + 1) % n
    ensures Before(i, n) == (n - 1 + i) % n
  {
    ModuloOfNextRound(i, n);
  }

  lemma ModuloOfNextRound(i: nat, n: nat)
    requires i < n
    ensures (n - 1 + i) % n == if i == 0 then n - 1 else i - 1
  {
  }

  /** How many steps of Next lead from a to b. */
  function Distance(a: nat, b: nat, n: nat): (k: nat)
    requires a < n && b < n
  {
    if a <= b then b - a else n - a + b
  }

  /** The slot k steps after i. */
  function Slot(i: nat, k: nat, n: nat): (j: nat)
    requires i < n && k < n
    ensures j < n && Distance(i, j, n) == k
  {
    if i + k < n then i + k else i + k - n
  }

  /** The distance walked by the circular loops is (b - a) mod n. */
  lemma DistanceIsModular(a: nat, b: nat, n: nat)
    requires a < n && b < n
    ensures Distance(a, b, n) == (b - a) % n
  {
  }

  // ------------------------------------------------ the source's statements

  function EmptyRing(n: nat): Ring {
    Ring(seq(n, _ => NULL), 0, 0, 0)
  }

  predicate IsEmpty(r: Ring) {
    r.front == r.rear
  }

  predicate IsFull(r: Ring)
    requires WellFormed(r)
  {
    r.rear == Before(r.front, |r.data|)
  }

  function StoreRear(r: Ring, x: Ptr): Ring
    requires WellFormed(r)
  {
    r.(data := r.data[r.rear := x])
  }

  function AdvanceRear(r: Ring): Ring
    requires WellFormed(r)
  {
    r.(rear := Next(r.rear, |r.data|))
  }

  function CountUp(r: Ring): Ring {
    r.(count := r.count + 1)
  }

  function Head(r: Ring): Ptr
    requires WellFormed(r)
  {
    r.data[r.front]
  }

  function ClearHead(r: Ring): Ring
    requires WellFormed(r)
  {
    r.(data := r.data[r.front := NULL])
  }

  function AdvanceFront(r: Ring): Ring
    requires WellFormed(r)
  {
    r.(front := Next(r.front, |r.data|))
  }

  function CountDown(r: Ring): Ring {
    r.(count := r.count - 1)
  }

  /** The statements between the wait loop and the signal of a push. */
  function PushBody(r: Ring, x: Ptr): Ring
    requires WellFormed(r)
  {
    CountUp(AdvanceRear(StoreRear(r, x)))
  }

  /** The statements between the wait loop and the signal of either pop. */
  function PopBody(r: Ring): Ring
    requires WellFormed(r)
  {
    CountDown(AdvanceFront(ClearHead(r)))
  }

  // ------------------------------------------------------------ abstraction

  /** n slots holding q in order from front on, wrapping round, and NULL elsewhere. */
  function Layout(front: nat, n: nat, q: seq<Ptr>): seq<Ptr>
    requires front < n
  {
    seq(n, j requires 0 <= j < n => var k := Distance(front, j, n); if k < |q| then q[k] else NULL)
  }

  /** r holds exactly q: its slots are laid out so from front on, rear is |q|
      slots further, and count agrees with the two indices. */
  predicate Represents(r: Ring, q: seq<Ptr>) {
    && WellFormed(r)
    && |q| < |r.data|
    && Distance(r.front, r.rear, |r.data|) == |q|
    && r.count == |q|
    && r.data == Layout(r.front, |r.data|, q)
  }

  function Len(r: Ring): nat
    requires WellFormed(r)
  {
    Distance(r.front, r.rear, |r.data|)
  }

  /** What a walk from front to rear reads. */
  function Items(r: Ring): seq<Ptr>
    requires WellFormed(r)
  {
    seq(Len(r), k requires 0 <= k < Len(r) => r.data[Slot(r.front, k, |r.data|)])
  }

  /** The slots such a walk reads, in its order. */
  function LiveSlots(r: Ring): seq<nat>
    requires WellFormed(r)
  {
    seq(Len(r), k requires 0 <= k < Len(r) => Slot(r.front, k, |r.data|))
  }

  lemma WalkStep(r: Ring, k: nat)
    requires WellFormed(r) && k <= Len(r)
    ensures Slot(r.front, k, |r.data|) == r.rear <==> k == Len(r)
    ensures k < Len(r) ==>
              var i := Slot(r.front, k, |r.data|);
              LiveSlots(r)[..k + 1] == LiveSlots(r)[..k] + [i] && Items(r)[k] == r.data[i] &&
              (i + 1) % |r.data| == Slot(r.front, k + 1, |r.data|)
  {
    if k < Len(r) {
      IndexExpressions(Slot(r.front, k, |r.data|), |r.data|);
    }
  }

  /** The walk misses no live slot and comes to none twice. */
  lemma LiveSlotsAreTheInterval(r: Ring)
    requires WellFormed(r)
    ensures forall j: nat :: j in LiveSlots(r) <==> j in Interval(r)
    ensures forall a, b :: 0 <= a < b < |LiveSlots(r)| ==> LiveSlots(r)[a] != LiveSlots(r)[b]
  {
    forall j: nat | j in Interval(r) ensures j in LiveSlots(r) {
      assert LiveSlots(r)[Distance(r.front, j, |r.data|)] == j;
    }
  }

  lemma EmptyRepresents(n: nat)
    requires 2 <= n
    ensures Represents(EmptyRing(n), [])
    ensures EmptyRing(n).front == 0
  {
  }

  /** The index tests, which never look at count, decide emptiness and fullness
      of the contents; one slot is always left unused. */
  lemma TestsDecide(r: Ring, q: seq<Ptr>)
    requires Represents(r, q)
    ensures IsEmpty(r) <==> q == []
    ensures IsEmpty(r) <==> r.count == 0
    ensures IsFull(r) <==> |q| == |r.data| - 1
    ensures IsFull(r) <==> r.count == |r.data| - 1
    ensures !(IsEmpty(r) && IsFull(r))
  {
  }

  lemma CountIsModularDistance(r: Ring, q: seq<Ptr>)
    requires Represents(r, q)
    ensures r.count == (r.rear - r.front) % |r.data|
    ensures 0 <= r.count <= |r.data| - 1
  {
    DistanceIsModular(r.front, r.rear, |r.data|);
  }

  /** The contents are determined by the ring. */
  lemma ItemsOfRepresentation(r: Ring, q: seq<Ptr>)
    requires Represents(r, q)
    ensures Items(r) == q
  {
    forall k | 0 <= k < |q| ensures Items(r)[k] == q[k] {
      var j := Slot(r.front, k, |r.data|);
      assert r.data[j] == q[k];
    }
  }

  lemma PushRepresents(r: Ring, q: seq<Ptr>, x: Ptr)
    requires Represents(r, q) && !IsFull(r)
    ensures Represents(PushBody(r, x), q + [x])
  {
  }

  lemma PopRepresents(r: Ring, q: seq<Ptr>)
    requires Represents(r, q) && !IsEmpty(r)
    ensures Head(r) == q[0]
    ensures Represents(PopBody(r), q[1..])
  {
  }

  // -------------------------------------------------------------- occupancy

  function Occupied(r: Ring): set<nat> {
    set j: nat | j < |r.data| && r.data[j] != NULL
  }

  /** The slots of the cyclic interval that starts at front and stops before rear. */
  function Interval(r: Ring): set<nat>
    requires WellFormed(r)
  {
    set j: nat | j < |r.data| && Distance(r.front, j, |r.data|) < Len(r)
  }

  lemma {:induction false} IntervalSize(r: Ring, len: nat)
    requires WellFormed(r) && len <= |r.data|
    ensures |set j: nat | j < |r.data| && Distance(r.front, j, |r.data|) < len| == len
    decreases len
  {
    var n := |r.data|;
    var s := set j: nat | j < n && Distance(r.front, j, n) < len;
    if len == 0 {
      assert s == {};
    } else {
      IntervalSize(r, len - 1);
      var last := Slot(r.front, len - 1, n);
      var t := set j: nat | j < n && Distance(r.front, j, n) < len - 1;
      assert s == t + {last};
    }
  }

  /** With non-NULL payloads the occupied slots are exactly the cyclic interval,
      and there are count of them. */
  lemma OccupiedIsInterval(r: Ring, q: seq<Ptr>)
    requires Represents(r, q)
    requires NULL !in q
    ensures Occupied(r) == Interval(r)
    ensures |Occupied(r)| == r.count
  {
    IntervalSize(r, Len(r));
    assert Occupied(r) == Interval(r);
  }
}
