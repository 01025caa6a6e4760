/** The message queue (ipc.c): two linked lists over one pool of nodes. */
module MessageQueue {
  import opened Basics
  import opened WaitQueue
  import opened NodeChain
  import opened MessageQueueSpec

  function Last(q: seq<Node>): int {
    if q == [] then NULL else q[|q| - 1]
  }

  /** The links once in-flight node `n`, whose own link is empty, is put behind the queue. */
  function LinkedWords(next: seq<int>, tail: int, n: Node): seq<int>
    requires n < |next| && -1 <= tail < |next|
  {
    if tail != NULL then next[tail := n] else next
  }

  lemma LinkChains(next: seq<int>, q: Mq, n: Node, head: int, freeHead: int)
    requires Partition(q) && n in q.filling && |next| == |q.data| && n < |next| && next[n] == NULL
    requires Chain(next, head, q.queue) && Chain(next, freeHead, q.free)
    ensures -1 <= Last(q.queue) < |next|
    ensures var v := LinkedWords(next, Last(q.queue), n);
            && Chain(v, if head == NULL then n else head, q.queue + [n])
            && Chain(v, freeHead, q.free)
    ensures Last(q.queue + [n]) == n && (Last(q.queue) == NULL <==> q.queue == [])
  {
    hide Partition;
    NotElsewhere(q, n);
    ListsDistinct(q);
    ChainFirst(next, head, q.queue);
    ChainAppend(next, head, q.queue, n);
    if q.queue != [] {
      NotElsewhere(q, q.queue[|q.queue| - 1]);
      ChainKept(next, freeHead, q.free, q.queue[|q.queue| - 1], n);
    }
  }

  /** A node in a thread's hands goes to the front of one list; the other list stays. */
  lemma PushChains(next: seq<int>, q: Mq, n: Node, head: int, freeHead: int)
    requires Partition(q) && (n in q.filling || n in q.reading) && |next| == |q.data|
    requires Chain(next, head, q.queue) && Chain(next, freeHead, q.free)
    ensures n < |next|
    ensures Chain(next[n := head], n, [n] + q.queue) && Chain(next[n := head], freeHead, q.free)
    ensures Chain(next[n := freeHead], n, [n] + q.free) && Chain(next[n := freeHead], head, q.queue)
  {
    hide Partition, Chain;
    NotElsewhere(q, n);
    ChainKept(next, freeHead, q.free, n, head);
    ChainKept(next, head, q.queue, n, freeHead);
    ChainPush(next, head, q.queue, n);
    ChainPush(next, freeHead, q.free, n);
  }

  /** The first queued node goes to the front of the free list. */
  lemma MoveChains(next: seq<int>, q: Mq, head: int, freeHead: int)
    requires Partition(q) && q.queue != [] && |next| == |q.data|
    requires Chain(next, head, q.queue) && Chain(next, freeHead, q.free)
    ensures var n := q.queue[0];
            && n == head && n < |next|
            && Chain(next[n := freeHead], next[n], q.queue[1..])
            && Chain(next[n := freeHead], n, [n] + q.free)
            && (Last(q.queue) == n <==> q.queue[1..] == [])
            && Partition(q.(queue := q.queue[1..], free := [n] + q.free))
  {
    var n := q.queue[0];
    NotElsewhere(q, n);
    ListsDistinct(q);
    ChainFirst(next, head, q.queue);
    ChainKept(next, next[n], q.queue[1..], n, freeHead);
    ChainPush(next, freeHead, q.free, n);
    assert q.queue == [n] + q.queue[1..];
  }

  lemma InHand(q: Mq, n: Node)
    requires Partition(q) && n in q.filling
    ensures n !in q.queue && n !in q.free && n < |q.data|
  {
    NotElsewhere(q, n);
  }

  /** Nodes in senders' hands are none of those whose links the calls write. */
  lemma OthersInHand(q: Mq, held: set<Node>)
    requires Partition(q) && held <= q.filling
    ensures forall n | n in held :: n !in q.queue && n !in q.reading && (q.queue != [] ==> n != q.queue[0] && n != Last(q.queue))
  {
    hide Partition;
    forall n | n in held ensures n !in q.queue && n !in q.reading {
      InHand(q, n);
      NotElsewhere(q, n);
    }
    if q.queue != [] {
      assert q.queue[0] in q.queue && q.queue[|q.queue| - 1] in q.queue;
    }
  }

  lemma FirstIsLast(q: Mq)
    requires Partition(q) && q.queue != []
    ensures Last(q.queue) == q.queue[0] <==> q.queue[1..] == []
    ensures q.queue[1..] != [] ==> Last(q.queue[1..]) == Last(q.queue)
  {
    ListsDistinct(q);
  }

  lemma EntryFits(q: Mq)
    requires Partition(q) && q.filling != {} && |q.data| <= UINT16_MAX
    ensures |q.queue| < UINT16_MAX
  {
    PoolSize(|q.data|);
    assert |multiset(q.queue)| == |q.queue|;
    assert |multiset(q.filling)| >= 1;
    assert |multiset(q.queue) + multiset(q.free) + multiset(q.filling) + multiset(q.reading)|
        == |q.queue| + |q.free| + |multiset(q.filling)| + |multiset(q.reading)|;
  }

  class MessageQueue {
    const next: array<int>         // the link in front of each node's bytes
    const data: array<Bytes>
    const msgSize: nat
    const flag: Flag
    var entry: nat
    var head: int
    var tail: int
    var freeHead: int
    var recv: Waiters              // suspend_thread
    var send: Waiters              // suspend_sender_thread
    ghost var queue: seq<Node>
    ghost var free: seq<Node>
    ghost var filling: set<Node>
    ghost var reading: set<Node>
    ghost var cleared: set<Node>   // nodes in senders' hands whose link is already empty

    ghost function Value(): Mq
      reads this, data
    {
      Mq(queue, free, filling, reading, data[..], recv, send)
    }

    ghost predicate Valid()
      reads this, next, data
    {
      && next != data as object
      && next.Length == data.Length <= UINT16_MAX
      && (forall i | 0 <= i < data.Length :: |data[i]| == msgSize)
      && Partition(Value())
      && Chain(next[..], head, queue) && tail == Last(queue)
      && Chain(next[..], freeHead, free)
      && entry == |queue|
      && Cleared()
    }

    ghost predicate Cleared()
      reads this, next
    {
      cleared <= filling && forall n | n in cleared :: n < next.Length && next[n] == NULL
    }

    static lemma NoNodes(next: seq<int>)
      ensures Chain(next, NULL, []) && multiset([]) == multiset(Pool(0))
    {
    }

    /** rt_mq_init: the free list starts at the last node of the pool. */
    constructor (max: nat, msgSize: nat, flag: Flag)
      requires max <= UINT16_MAX
      ensures Valid() && this.flag == flag && this.msgSize == msgSize && data.Length == max
      ensures queue == [] && |free| == max && filling == {} == reading && recv == send == NOBODY
      ensures fresh(next) && fresh(data)
    {
      hide Partition, Chain, Pool;
      this.msgSize, this.flag := msgSize, flag;
      next := new int[max](_ => NULL);
      data := new Bytes[max](_ => seq(msgSize, _ => 0));
      entry, head, tail, freeHead := 0, NULL, NULL, NULL;
      recv, send, queue, free, filling, reading, cleared := NOBODY, NOBODY, [], [], {}, {}, {};
      new;
      NoNodes(next[..]);
      for temp := 0 to max
        invariant Chain(next[..], freeHead, free) && |free| == temp && multiset(free) == multiset(Pool(temp))
        invariant queue == [] && filling == {} == reading == cleared && recv == send == NOBODY
        invariant head == tail == NULL && entry == 0
        invariant forall i | 0 <= i < max :: |data[i]| == msgSize
      {
        ghost var was := next[..];
        NotYetFree(free, temp);
        ChainPush(was, freeHead, free, temp);
        next[temp] := freeHead;
        freeHead := temp;
        free := [temp] + free;
        assert next[..] == was[temp := next[temp]];
      }
      NoNodes(next[..]);
      AllFree(Value());
    }

    /** rt_mq_send_wait and rt_mq_urgent, up to the copy. */
    method TakeFree(who: Option<Tid>, wait: Wait, prio: Tid -> nat) returns (o: Outcome)
      requires Valid() && (wait != NoWait ==> who.Some?)
      modifies this
      ensures Valid() && (Value(), o) == MessageQueueSpec.TakeFree(old(Value()), who, wait, flag, prio)
    {
      hide Partition, Chain, Block, Entered;
      ghost var q := Value();
      PartitionStep(q, TakeFreeAct(None, NoWait), flag, prio);
      ChainFirst(next[..], freeHead, free);
      send := Entered(send, who);
      var msg := freeHead;
      if msg == NULL {
        if wait == NoWait {
          SamePlaces(q, Value());
          return Refused;
        }
        send := SuspendOn(send, who.value, flag, wait, prio);
        SamePlaces(q, Value());
        return Blocked;
      }
      freeHead := next[msg];
      free, filling := free[1..], filling + {msg};
      SamePlaces(Apply(q, TakeFreeAct(None, NoWait), flag, prio).0, Value());
      return Holds(msg);
    }

    /** rt_mq_send_wait empties the node's link before the copy, outside the lock: nothing else may rely on it. */
    method Clear(n: Node)
      requires Valid() && n in filling
      modifies next, this`cleared
      ensures Valid() && Value() == old(Value()) && cleared == old(cleared) + {n}
    {
      hide Partition, Chain;
      ghost var q, was := Value(), next[..];
      InHand(q, n);
      ChainKept(was, head, queue, n, NULL);
      ChainKept(was, freeHead, free, n, NULL);
      next[n] := NULL;
      assert next[..] == was[n := NULL];
      cleared := cleared + {n};
    }

    /** The copy into the node: nothing else may rely on it, and nothing else changes. */
    method Fill(n: Node, bytes: Bytes)
      requires Valid() && n in filling && |bytes| <= msgSize && n < data.Length
      modifies data
      ensures Valid() && Value() == MessageQueueSpec.Fill(old(Value()), n, bytes)
    {
      hide Chain;
      ghost var q := Value();
      data[n] := bytes + data[n][|bytes|..];
      assert data[..] == q.data[n := data[n]];
      assert next[..] == old(next[..]);
    }

    /** rt_mq_send_wait: the node becomes the new tail. */
    method Link(n: Node)
      requires Valid() && n in cleared
      modifies this, next
      ensures Valid() && Value() == MessageQueueSpec.Link(old(Value()), n)
    {
      hide Partition, Chain, WakeFirst, Last, Pool;
      ghost var q, was := Value(), next[..];
      OthersInHand(q, cleared);
      LinkChains(was, q, n, head, freeHead);
      PartitionStep(q, LinkAct(n), flag, t => 0);
      ChainFirst(was, head, queue);
      EntryFits(q);
      if tail != NULL { next[tail] := n; }
      assert next[..] == LinkedWords(was, tail, n);
      tail := n;
      if head == NULL { head := n; }
      if entry < UINT16_MAX { entry := entry + 1; }
      queue, filling, cleared := queue + [n], filling - {n}, cleared - {n};
      recv := WakeFirst(recv);
    }

    /** rt_mq_urgent: the node becomes the new head. */
    method LinkUrgent(n: Node)
      requires Valid() && n in filling
      modifies this, next
      ensures Valid() && Value() == MessageQueueSpec.LinkUrgent(old(Value()), n)
    {
      hide Partition, Chain, WakeFirst;
      ghost var q, was := Value(), next[..];
      PushChains(was, q, n, head, freeHead);
      PartitionStep(q, UrgentAct(n), flag, t => 0);
      ChainFirst(was, head, queue);
      EntryFits(q);
      next[n] := head;
      assert next[..] == was[n := head];
      head := n;
      if tail == NULL { tail := n; }
      if entry < UINT16_MAX { entry := entry + 1; }
      queue, filling, cleared := [n] + queue, filling - {n}, cleared - {n};
      recv := WakeFirst(recv);
    }

    /** rt_mq_recv, up to the copy. */
    method TakeMessage(who: Option<Tid>, wait: Wait, prio: Tid -> nat) returns (o: Outcome)
      requires Valid() && (wait != NoWait ==> who.Some?)
      modifies this
      ensures Valid() && (Value(), o) == MessageQueueSpec.TakeMessage(old(Value()), who, wait, flag, prio)
    {
      hide Partition, Chain, Block, Entered;
      ghost var q := Value();
      PartitionStep(q, TakeMessageAct(None, NoWait), flag, prio);
      ChainFirst(next[..], head, queue);
      recv := Entered(recv, who);
      if entry == 0 {
        if wait == NoWait {
          SamePlaces(q, Value());
          return Refused;
        }
        recv := SuspendOn(recv, who.value, flag, wait, prio);
        SamePlaces(q, Value());
        return Blocked;
      }
      FirstIsLast(q);
      var msg := head;
      head := next[msg];
      if tail == msg { tail := NULL; }
      if entry > 0 { entry := entry - 1; }
      queue, reading := queue[1..], reading + {msg};
      SamePlaces(Apply(q, TakeMessageAct(None, NoWait), flag, prio).0, Value());
      return Holds(msg);
    }

    /** The copy out of the node. */
    method Copy(n: Node, length: nat) returns (bytes: Bytes)
      requires Valid() && n in reading && n < data.Length
      ensures Read(bytes) == Apply(Value(), CopyAct(n, length), flag, t => 0).1
    {
      bytes := data[n][..if length > msgSize then msgSize else length];
    }

    /** rt_mq_recv: the node goes to the front of the free list. */
    method PutBack(n: Node)
      requires Valid() && n in reading
      modifies this, next
      ensures Valid() && Value() == MessageQueueSpec.PutBack(old(Value()), n)
    {
      hide Partition, Chain, WakeFirst;
      ghost var q, was := Value(), next[..];
      PushChains(was, q, n, head, freeHead);
      PartitionStep(q, PutBackAct(n), flag, t => 0);
      OthersInHand(q, cleared);
      next[n] := freeHead;
      assert next[..] == was[n := freeHead];
      freeHead := n;
      free, reading := [n] + free, reading - {n};
      send := WakeFirst(send);
    }

    /** The two lists and the partition, without the entry count. */
    ghost predicate Linked()
      reads this, next, data
    {
      && next != data as object
      && next.Length == data.Length
      && Partition(Value())
      && Chain(next[..], head, queue) && tail == Last(queue)
      && Chain(next[..], freeHead, free)
      && Cleared()
    }

    /** rt_mq_control: the first message goes to the free list. */
    method DropFirst()
      requires Linked() && head != NULL
      modifies this`head, this`tail, this`freeHead, this`queue, this`free, next
      ensures Linked() && old(queue) != [] && queue == old(queue[1..]) && free == [old(queue[0])] + old(free)
    {
      hide Partition, Chain;
      ghost var v, was := Value(), next[..];
      ChainFirst(was, head, queue);
      MoveChains(was, v, head, freeHead);
      FirstIsLast(v);
      OthersInHand(v, cleared);
      var msg := head;
      head := next[msg];
      if tail == msg { tail := NULL; }
      next[msg] := freeHead;
      assert next[..] == was[msg := freeHead];
      freeHead := msg;
      queue, free := queue[1..], [msg] + free;
    }

    /** rt_mq_control with RT_IPC_CMD_RESET. */
    method Reset()
      requires Valid()
      modifies this, next
      ensures Valid() && Value() == MessageQueueSpec.Reset(old(Value()))
    {
      hide Partition, Chain, Dismiss, Reversed, Last;
      ghost var q := Value();
      recv := ResumeAll(recv);
      send := ResumeAll(send);
      SamePlaces(q, Value());
      while head != NULL
        invariant Linked() && unchanged(data)
        invariant Value() == q.(queue := queue, free := free, recv := Dismiss(q.recv), send := Dismiss(q.send))
        invariant Dropped(queue, free) == Dropped(q.queue, q.free)
        decreases |queue|
      {
        ghost var was, had := queue, free;
        DropFirst();
        DroppedStep(was, had);
      }
      ChainFirst(next[..], head, queue);
      AllDropped(free);
      entry := 0;
    }
  }

  /** The free list once all queued nodes are dropped onto it. */
  function Dropped(queue: seq<Node>, free: seq<Node>): seq<Node> {
    Reversed(queue) + free
  }

  lemma DroppedStep(s: seq<Node>, t: seq<Node>)
    requires s != []
    ensures Dropped(s, t) == Dropped(s[1..], [s[0]] + t)
  {
  }

  lemma AllDropped(free: seq<Node>)
    ensures Dropped([], free) == free
  {
  }

  /** Where the nodes are does not depend on the waiting threads. */
  lemma SamePlaces(q: Mq, r: Mq)
    requires Partition(q) && r == q.(recv := r.recv, send := r.send)
    ensures Partition(r)
  {
  }

  lemma AllFree(q: Mq)
    requires q.queue == [] && q.filling == {} == q.reading && multiset(q.free) == multiset(Pool(|q.data|))
    ensures Partition(q)
  {
  }
}
