/** The bounded queue with waiting receivers (ps3emu/libs/ConcurrentQueue.h:12-108). Every region
    between locking the mutex, or waking up, and unlocking it, or going to wait, is one step. */
module ConcurrentQueue {
  datatype Waiter = Waiter(id: nat, priority: nat)

  /** `ConcurrentFifoQueue` and `ConcurrentPriorityQueue`. */
  datatype Kind = Fifo | Priority

  predicate IsHighest(waiting: seq<Waiter>, i: nat) {
    i < |waiting| && forall j :: 0 <= j < |waiting| ==> waiting[j].priority <= waiting[i].priority
  }

  /** What `_waiting.top()` may be: the first to arrive, or any of the highest priority. Which one of
      them it is depends on the history of the heap, so it is part of the state. */
  predicate IsTop(kind: Kind, waiting: seq<Waiter>, top: nat) {
    waiting == [] || (if kind.Fifo? then top == 0 else IsHighest(waiting, top))
  }

  // ---------------------------------------------------------------- the queue and its history

  datatype Queue<T> = Queue(
    values: seq<T>,
    waiting: seq<Waiter>,
    top: nat,              // which of the waiting threads is on top
    sent: seq<T>,          // all values ever sent
    removed: seq<T>,       // all values ever taken out
    arrived: seq<Waiter>,  // all receivers that ever started to wait
    served: seq<Waiter>)   // those that got a value

  datatype Op<T> =
    | Send(value: T)                          // send, once there is room
    | StartReceive(waiter: Waiter, top: nat)  // receive, up to the wait
    | FinishReceive(id: nat, top: nat)        // receive, from the wait on
    | TryReceive(size: nat)
    | Drain

  /** The condition a receiver waits for. */
  predicate CanFinish<T>(q: Queue<T>, id: nat) {
    q.values != [] && q.top < |q.waiting| && q.waiting[q.top].id == id
  }

  /** A thread waits at most once; a push or a pop may put any possible waiter on top. */
  predicate Enabled<T>(q: Queue<T>, kind: Kind, size: nat, op: Op<T>) {
    match op
    case Send(_) => |q.values| < size
    case StartReceive(w, top) => Joins(q.waiting, w) && IsTop(kind, q.waiting + [w], top)
    case FinishReceive(id, top) => CanFinish(q, id) && IsTop(kind, Without(q.waiting, q.top), top)
    case TryReceive(_) => true
    case Drain => true
  }

  predicate Joins(waiting: seq<Waiter>, w: Waiter) {
    forall i :: 0 <= i < |waiting| ==> waiting[i].id != w.id
  }

  function Without<A>(s: seq<A>, i: nat): seq<A>
    requires i < |s|
  {
    s[..i] + s[i + 1..]
  }

  function Step<T>(q: Queue<T>, kind: Kind, size: nat, op: Op<T>): Queue<T>
    requires Enabled(q, kind, size, op)
  {
    match op
    case Send(v) => q.(values := q.values + [v], sent := q.sent + [v])
    case StartReceive(w, top) => q.(waiting := q.waiting + [w], top := top, arrived := q.arrived + [w])
    case FinishReceive(_, top) =>
      q.(values := q.values[1..], waiting := Without(q.waiting, q.top), top := top,
         removed := q.removed + [q.values[0]], served := q.served + [q.waiting[q.top]])
    case TryReceive(n) =>
      var count := if n < |q.values| then n else |q.values|;
      q.(values := q.values[count..], removed := q.removed + q.values[..count])
    case Drain => q.(values := [], removed := q.removed + q.values)
  }

  // ---------------------------------------------------------------- the object

  class ConcurrentQueue<T> {
    const size: nat
    const kind: Kind
    var values: seq<T>
    var waiting: seq<Waiter>
    var top: nat
    ghost var sent: seq<T>
    ghost var removed: seq<T>
    ghost var arrived: seq<Waiter>
    ghost var served: seq<Waiter>

    constructor (size: nat, kind: Kind)
      ensures this.size == size && this.kind == kind && Value() == Queue([], [], 0, [], [], [], [])
    {
      this.size, this.kind, values, waiting, top := size, kind, [], [], 0;
      sent, removed, arrived, served := [], [], [], [];
    }

    ghost function Value(): Queue<T>
      reads this
    {
      Queue(values, waiting, top, sent, removed, arrived, served)
    }

    /** `send(t, true)` gives up on a full queue. */
    method SendNoWait(t: T) returns (ok: bool)
      requires |values| <= size
      modifies this
      ensures ok <==> Enabled(old(Value()), kind, size, Send(t))
      ensures Value() == if ok then Step(old(Value()), kind, size, Send(t)) else old(Value())
      ensures ok <==> |old(values)| < size
      ensures values == (if ok then old(values) + [t] else old(values)) && waiting == old(waiting)
    {
      if |values| == size {
        return false;
      }
      SendNow(t);
      return true;
    }

    method SendNow(t: T)
      requires Enabled(Value(), kind, size, Send(t))
      modifies this
      ensures Value() == Step(old(Value()), kind, size, Send(t))
      ensures values == old(values) + [t] && waiting == old(waiting) && top == old(top)
    {
      values := values + [t];
      sent := sent + [t];
    }

    /** `newTop` is the waiter that the container has on top after the push. */
    method ReceiveStart(id: nat, priority: nat, newTop: nat)
      requires Enabled(Value(), kind, size, StartReceive(Waiter(id, priority), newTop))
      modifies this
      ensures Value() == Step(old(Value()), kind, size, StartReceive(Waiter(id, priority), newTop))
      ensures waiting == old(waiting) + [Waiter(id, priority)] && top == newTop && values == old(values)
    {
      waiting := waiting + [Waiter(id, priority)];
      top := newTop;
      arrived := arrived + [Waiter(id, priority)];
    }

    method ReceiveFinish(id: nat, newTop: nat) returns (val: T)
      requires Enabled(Value(), kind, size, FinishReceive(id, newTop))
      modifies this
      ensures Value() == Step(old(Value()), kind, size, FinishReceive(id, newTop))
      ensures old(values) == [val] + values && top == newTop
      ensures |waiting| == |old(waiting)| - 1 && waiting[..old(top)] == old(waiting)[..old(top)]
      ensures waiting[old(top)..] == old(waiting)[old(top) + 1..]
    {
      served := served + [waiting[top]];
      waiting := waiting[..top] + waiting[top + 1..];
      top := newTop;
      val := values[0];
      values := values[1..];
      removed := removed + [val];
    }

    method TryReceive(arr: array<T>, count: nat) returns (number: nat)
      requires count <= arr.Length
      modifies this, arr
      ensures Value() == Step(old(Value()), kind, size, Op.TryReceive(count))
      ensures number == (if count < |old(values)| then count else |old(values)|)
      ensures arr[..] == old(values)[..number] + old(arr[..])[number..]
      ensures values == old(values)[number..] && waiting == old(waiting)
    {
      number := if count < |values| then count else |values|;
      ghost var before, was := values, arr[..];
      ghost var taken := removed;
      for i := 0 to number
        invariant values == before[i..] && removed == taken + before[..i]
        invariant waiting == old(waiting) && top == old(top) && sent == old(sent) && arrived == old(arrived)
        invariant served == old(served)
        invariant forall k {:trigger arr[k]} :: 0 <= k < i ==> arr[k] == before[k]
        invariant forall k {:trigger arr[k]} :: i <= k < arr.Length ==> arr[k] == was[k]
      {
        assert before[..i + 1] == before[..i] + [before[i]] && before[i..][1..] == before[i + 1..];
        arr[i] := values[0];
        removed := removed + [values[0]];
        values := values[1..];
      }
    }

    method Drain()
      modifies this
      ensures Value() == Step(old(Value()), kind, size, Op.Drain)
      ensures values == [] && waiting == old(waiting)
    {
      ghost var before, taken := values, removed;
      while values != []
        invariant |values| <= |before| && values == before[|before| - |values|..]
        invariant removed == taken + before[..|before| - |values|]
        invariant waiting == old(waiting) && top == old(top) && sent == old(sent) && arrived == old(arrived)
        invariant served == old(served)
        decreases |values|
      {
        removed := removed + [values[0]];
        values := values[1..];
      }
    }
  }

  // ---------------------------------------------------------------- over all runs

  predicate DistinctIds(waiting: seq<Waiter>) {
    forall i, j :: 0 <= i < j < |waiting| ==> waiting[i].id != waiting[j].id
  }

  ghost predicate Inv<T>(q: Queue<T>, kind: Kind, size: nat) {
    q.removed + q.values == q.sent && |q.values| <= size &&
    DistinctIds(q.waiting) &&
    multiset(q.served) + multiset(q.waiting) == multiset(q.arrived) &&
    IsTop(kind, q.waiting, q.top) && (kind.Fifo? ==> q.served + q.waiting == q.arrived)
  }

  lemma FinishKeepsInv<T>(q: Queue<T>, kind: Kind, size: nat, id: nat, top: nat)
    requires Inv(q, kind, size) && Enabled(q, kind, size, FinishReceive(id, top))
    ensures Inv(Step(q, kind, size, FinishReceive(id, top)), kind, size)
  {
    ServedOnce(q, q.top);
    StillDistinct(q.waiting, q.top);
    ValueMoves(q.removed, q.values);
  }

  lemma ValueMoves<T>(removed: seq<T>, values: seq<T>)
    requires values != []
    ensures removed + [values[0]] + values[1..] == removed + values
  {}

  lemma StillDistinct(waiting: seq<Waiter>, i: nat)
    requires i < |waiting| && DistinctIds(waiting)
    ensures DistinctIds(Without(waiting, i))
  {
    var rest := Without(waiting, i);
    forall a, b | 0 <= a < b < |rest| ensures rest[a].id != rest[b].id {
      var a', b' := (if a < i then a else a + 1), (if b < i then b else b + 1);
      assert rest[a] == waiting[a'] && rest[b] == waiting[b'];
    }
  }

  lemma StartKeepsInv<T>(q: Queue<T>, kind: Kind, size: nat, w: Waiter, top: nat)
    requires Inv(q, kind, size) && Enabled(q, kind, size, StartReceive(w, top))
    ensures Inv(Step(q, kind, size, StartReceive(w, top)), kind, size)
  {
    assert q.served + (q.waiting + [w]) == (q.served + q.waiting) + [w];
  }

  lemma RemovalKeepsOrder<T>(removed: seq<T>, values: seq<T>, count: nat)
    requires count <= |values|
    ensures removed + values[..count] + values[count..] == removed + values
  {}

  /** Values come out in the order they went in, none is lost or doubled, the bound is kept, and no
      receiver is lost; with a FIFO queue receivers are served in the order of their arrival. */
  lemma StepKeepsInv<T>(q: Queue<T>, kind: Kind, size: nat, op: Op<T>)
    requires Inv(q, kind, size) && Enabled(q, kind, size, op)
    ensures Inv(Step(q, kind, size, op), kind, size)
  {
    match op
    case Send(v) => assert q.removed + (q.values + [v]) == q.sent + [v];
    case StartReceive(w, top) => StartKeepsInv(q, kind, size, w, top);
    case FinishReceive(id, top) => FinishKeepsInv(q, kind, size, id, top);
    case TryReceive(n) => RemovalKeepsOrder(q.removed, q.values, if n < |q.values| then n else |q.values|);
    case Drain =>
  }

  lemma ServedOnce<T>(q: Queue<T>, i: nat)
    requires i < |q.waiting|
    ensures multiset(q.served + [q.waiting[i]]) + multiset(Without(q.waiting, i))
      == multiset(q.served) + multiset(q.waiting)
    ensures i == 0 ==> q.served + [q.waiting[i]] + Without(q.waiting, i) == q.served + q.waiting
  {
    assert q.waiting == q.waiting[..i] + [q.waiting[i]] + q.waiting[i + 1..];
  }

  predicate IsRun<T>(q: Queue<T>, kind: Kind, size: nat, ops: seq<Op<T>>)
    decreases |ops|
  {
    ops == [] || (Enabled(q, kind, size, ops[0]) && IsRun(Step(q, kind, size, ops[0]), kind, size, ops[1..]))
  }

  function RunOps<T>(q: Queue<T>, kind: Kind, size: nat, ops: seq<Op<T>>): Queue<T>
    requires IsRun(q, kind, size, ops)
    decreases |ops|
  {
    if ops == [] then q else RunOps(Step(q, kind, size, ops[0]), kind, size, ops[1..])
  }

  lemma {:induction false} RunKeepsInv<T>(q: Queue<T>, kind: Kind, size: nat, ops: seq<Op<T>>)
    requires Inv(q, kind, size) && IsRun(q, kind, size, ops)
    ensures Inv(RunOps(q, kind, size, ops), kind, size)
    decreases |ops|
  {
    if ops != [] {
      StepKeepsInv(q, kind, size, ops[0]);
      RunKeepsInv(Step(q, kind, size, ops[0]), kind, size, ops[1..]);
    }
  }

  /** What the senders hand in and the receivers that arrive, in the order of the operations. */
  function SentBy<T>(ops: seq<Op<T>>): seq<T> {
    if ops == [] then [] else (if ops[0].Send? then [ops[0].value] else []) + SentBy(ops[1..])
  }

  function ArrivedBy<T>(ops: seq<Op<T>>): seq<Waiter> {
    if ops == [] then [] else (if ops[0].StartReceive? then [ops[0].waiter] else []) + ArrivedBy(ops[1..])
  }

  /** What an operation hands out. */
  function Taken<T>(q: Queue<T>, kind: Kind, size: nat, op: Op<T>): seq<T>
    requires Enabled(q, kind, size, op)
  {
    match op
    case Send(_) => []
    case StartReceive(_, _) => []
    case FinishReceive(_, _) => [q.values[0]]
    case TryReceive(n) => if n < |q.values| then q.values[..n] else q.values
    case Drain => q.values
  }

  function TakenBy<T>(q: Queue<T>, kind: Kind, size: nat, ops: seq<Op<T>>): seq<T>
    requires IsRun(q, kind, size, ops)
    decreases |ops|
  {
    if ops == [] then []
    else Taken(q, kind, size, ops[0]) + TakenBy(Step(q, kind, size, ops[0]), kind, size, ops[1..])
  }

  /** The receivers whose wait is over, by their entries in the waiting list. */
  function ServedBy<T>(q: Queue<T>, kind: Kind, size: nat, ops: seq<Op<T>>): seq<Waiter>
    requires IsRun(q, kind, size, ops)
    decreases |ops|
  {
    if ops == [] then []
    else
      (if ops[0].FinishReceive? then [q.waiting[q.top]] else [])
        + ServedBy(Step(q, kind, size, ops[0]), kind, size, ops[1..])
  }

  /** What was added to the histories from `q` to `r`. */
  ghost predicate Added<T>(q: Queue<T>, r: Queue<T>, sent: seq<T>, removed: seq<T>, arrived: seq<Waiter>,
                           served: seq<Waiter>)
  {
    r.sent == q.sent + sent && r.removed == q.removed + removed && r.arrived == q.arrived + arrived &&
    r.served == q.served + served
  }

  lemma StepAdds<T>(q: Queue<T>, kind: Kind, size: nat, op: Op<T>)
    requires Enabled(q, kind, size, op)
    ensures Added(q, Step(q, kind, size, op), if op.Send? then [op.value] else [], Taken(q, kind, size, op),
                  if op.StartReceive? then [op.waiter] else [], if op.FinishReceive? then [q.waiting[q.top]] else [])
  {
    assert q.values[..|q.values|] == q.values;
  }

  lemma AddedBoth<T>(q: Queue<T>, m: Queue<T>, r: Queue<T>, s1: seq<T>, s2: seq<T>, t1: seq<T>, t2: seq<T>,
                     a1: seq<Waiter>, a2: seq<Waiter>, b1: seq<Waiter>, b2: seq<Waiter>)
    requires Added(q, m, s1, t1, a1, b1) && Added(m, r, s2, t2, a2, b2)
    ensures Added(q, r, s1 + s2, t1 + t2, a1 + a2, b1 + b2)
  {}

  /** The histories are those of the operations. */
  lemma {:induction false} RunAdds<T>(q: Queue<T>, kind: Kind, size: nat, ops: seq<Op<T>>)
    requires IsRun(q, kind, size, ops)
    ensures Added(q, RunOps(q, kind, size, ops), SentBy(ops), TakenBy(q, kind, size, ops), ArrivedBy(ops),
                  ServedBy(q, kind, size, ops))
    decreases |ops|
  {
    if ops != [] {
      var op, rest, next := ops[0], ops[1..], Step(q, kind, size, ops[0]);
      StepAdds(q, kind, size, op);
      RunAdds(next, kind, size, rest);
      AddedBoth(q, next, RunOps(next, kind, size, rest),
                if op.Send? then [op.value] else [], SentBy(rest),
                Taken(q, kind, size, op), TakenBy(next, kind, size, rest),
                if op.StartReceive? then [op.waiter] else [], ArrivedBy(rest),
                if op.FinishReceive? then [q.waiting[q.top]] else [], ServedBy(next, kind, size, rest));
    }
  }

  lemma AddedToNothing<T>(q: Queue<T>, r: Queue<T>, sent: seq<T>, removed: seq<T>, arrived: seq<Waiter>,
                          served: seq<Waiter>)
    requires Added(q, r, sent, removed, arrived, served)
    requires q.sent == [] && q.removed == [] && q.arrived == [] && q.served == []
    ensures r.sent == sent && r.removed == removed && r.arrived == arrived && r.served == served
  {}

  /** From an empty queue on: what was handed out, followed by what is queued, is what was handed in;
      receivers that wait and those that got a value are together those that arrived, with a FIFO queue
      in that order. */
  lemma QueueIsFaithful<T>(kind: Kind, size: nat, ops: seq<Op<T>>)
    requires IsRun(Queue([], [], 0, [], [], [], []), kind, size, ops)
    ensures var empty := Queue([], [], 0, [], [], [], []); var q := RunOps(empty, kind, size, ops);
      && TakenBy(empty, kind, size, ops) + q.values == SentBy(ops) && |q.values| <= size
      && multiset(ServedBy(empty, kind, size, ops)) + multiset(q.waiting) == multiset(ArrivedBy(ops))
      && (kind.Fifo? ==> ServedBy(empty, kind, size, ops) + q.waiting == ArrivedBy(ops))
  {
    RunKeepsInv(Queue([], [], 0, [], [], [], []), kind, size, ops);
    var empty: Queue<T> := Queue([], [], 0, [], [], [], []);
    RunAdds(empty, kind, size, ops);
    AddedToNothing(empty, RunOps(empty, kind, size, ops), SentBy(ops), TakenBy(empty, kind, size, ops), ArrivedBy(ops),
                   ServedBy(empty, kind, size, ops));
  }

  /** Whenever there are values and receivers, exactly one receiver may go on: the first to arrive, or
      one of the highest priority. */
  lemma ExactlyOneMayFinish<T>(q: Queue<T>, kind: Kind, size: nat)
    requires Inv(q, kind, size) && q.values != [] && q.waiting != []
    ensures q.top < |q.waiting| && (kind.Fifo? ==> q.top == 0)
    ensures kind.Priority? ==> forall j :: 0 <= j < |q.waiting| ==> q.waiting[j].priority <= q.waiting[q.top].priority
    ensures forall j :: 0 <= j < |q.waiting| ==> (CanFinish(q, q.waiting[j].id) <==> j == q.top)
  {
    var i := q.top;
    forall j | 0 <= j < |q.waiting| ensures CanFinish(q, q.waiting[j].id) <==> j == i {
      if j < i {
        assert q.waiting[j].id != q.waiting[i].id;
      } else if i < j {
        assert q.waiting[i].id != q.waiting[j].id;
      }
    }
  }

  /** The receiver that goes on takes its own entry from the waiting list, and no other's. */
  lemma TakesItsOwnEntry<T>(q: Queue<T>, kind: Kind, size: nat, id: nat, top: nat, i: nat)
    requires Inv(q, kind, size) && Enabled(q, kind, size, FinishReceive(id, top)) && i < |q.waiting|
    ensures q.waiting[i] in Step(q, kind, size, FinishReceive(id, top)).waiting <==> q.waiting[i].id != id
  {
    var k := q.top;
    var rest := Without(q.waiting, k);
    if i < k {
      assert rest[i] == q.waiting[i] && q.waiting[i].id != q.waiting[k].id;
    } else if k < i {
      assert rest[i - 1] == q.waiting[i] && q.waiting[k].id != q.waiting[i].id;
    }
  }
}
