/**
  What the regions of the message-queue calls (ipc.c) do, on values, and what all runs of them keep.

  A send takes a free node, fills it outside the lock, and links it; a receive unlinks a node, reads
  it outside the lock, and gives it back. Other threads may run between these regions.
*/
module MessageQueueSpec {
  import opened Basics
  import opened WaitQueue
  import opened NodeChain

  type Bytes = seq<nat>

  /** `queue` and `free` are lists of nodes; `filling` and `reading` hold the nodes of threads that are
      between two regions of a send and of a receive. */
  datatype Mq = Mq(queue: seq<Node>, free: seq<Node>, filling: set<Node>, reading: set<Node>,
                   data: seq<Bytes>, recv: Waiters, send: Waiters)

  datatype Outcome = Done | Holds(node: Node) | Read(bytes: Bytes) | Refused | Blocked

  /** rt_mq_send_wait and rt_mq_urgent up to the copy. rt_mq_urgent never waits. */
  function TakeFree(q: Mq, who: Option<Tid>, wait: Wait, flag: Flag, prio: Tid -> nat): (Mq, Outcome)
    requires wait != NoWait ==> who.Some?
  {
    var send := Entered(q.send, who);
    if q.free == [] then
      if wait == NoWait then (q.(send := send), Refused)
      else (q.(send := Block(send, who.value, flag, wait, prio)), Blocked)
    else (q.(free := q.free[1..], filling := q.filling + {q.free[0]}, send := send), Holds(q.free[0]))
  }

  /** rt_memcpy into a node: the rest of an older message stays behind a shorter one. */
  function Fill(q: Mq, n: Node, bytes: Bytes): Mq
    requires n < |q.data|
  {
    var was := q.data[n];
    q.(data := q.data[n := if |bytes| <= |was| then bytes + was[|bytes|..] else was])
  }

  /** rt_mq_send_wait from the second lock on. */
  function Link(q: Mq, n: Node): Mq {
    q.(queue := q.queue + [n], filling := q.filling - {n}, recv := WakeFirst(q.recv))
  }

  /** rt_mq_urgent from the second lock on. */
  function LinkUrgent(q: Mq, n: Node): Mq {
    q.(queue := [n] + q.queue, filling := q.filling - {n}, recv := WakeFirst(q.recv))
  }

  /** rt_mq_recv up to the copy. */
  function TakeMessage(q: Mq, who: Option<Tid>, wait: Wait, flag: Flag, prio: Tid -> nat): (Mq, Outcome)
    requires wait != NoWait ==> who.Some?
  {
    var recv := Entered(q.recv, who);
    if q.queue == [] then
      if wait == NoWait then (q.(recv := recv), Refused)
      else (q.(recv := Block(recv, who.value, flag, wait, prio)), Blocked)
    else (q.(queue := q.queue[1..], reading := q.reading + {q.queue[0]}, recv := recv), Holds(q.queue[0]))
  }

  /** rt_mq_recv from the second lock on. */
  function PutBack(q: Mq, n: Node): Mq {
    q.(free := [n] + q.free, reading := q.reading - {n}, send := WakeFirst(q.send))
  }

  function Reversed(s: seq<Node>): (r: seq<Node>)
    ensures |r| == |s|
    ensures multiset(r) == multiset(s)
  {
    if s == [] then []
    else
      assert s == [s[0]] + s[1..];
      Reversed(s[1..]) + [s[0]]
  }

  /** rt_mq_control with RT_IPC_CMD_RESET: the queued nodes become free, last one first. */
  function Reset(q: Mq): Mq {
    q.(queue := [], free := Reversed(q.queue) + q.free, recv := Dismiss(q.recv), send := Dismiss(q.send))
  }

  /** A sender gets the first free node exactly when there is one; else it is refused, or queues. */
  lemma TakeFreeExactly(q: Mq, who: Option<Tid>, wait: Wait, flag: Flag, prio: Tid -> nat)
    requires Sound(q.send) && (wait != NoWait ==> who.Some?) && (who.Some? ==> who.value !in q.send.queue)
    ensures var (q', o) := TakeFree(q, who, wait, flag, prio);
            && (o.Holds? <==> q.free != []) && (o == Refused <==> q.free == [] && wait == NoWait)
            && (o == Blocked <==> q.free == [] && wait != NoWait)
            && q' == q.(free := q'.free, filling := q'.filling, send := q'.send)
            && (o.Holds? ==> q.free == [o.node] + q'.free && q'.filling == q.filling + {o.node})
            && (!o.Holds? ==> q'.free == [] && q'.filling == q.filling)
            && (o != Blocked ==> q'.send.queue == q.send.queue)
            && (o == Blocked ==> NowWaits(q.send, q'.send, who.value, wait))
  {
    hide Block, NowWaits;
    if q.free == [] && wait != NoWait { Waits(q.send, who.value, flag, wait, prio); }
  }

  /** A fill puts the bytes at the front of the node, and leaves the rest of it and every other node. */
  lemma FillExactly(q: Mq, n: Node, bytes: Bytes)
    requires n < |q.data| && |bytes| <= |q.data[n]|
    ensures var q' := Fill(q, n, bytes);
            && q' == q.(data := q'.data) && |q'.data| == |q.data| && |q'.data[n]| == |q.data[n]|
            && q'.data[n][..|bytes|] == bytes && q'.data[n][|bytes|..] == q.data[n][|bytes|..]
            && forall m | 0 <= m < |q.data| && m != n :: q'.data[m] == q.data[m]
  {
  }

  /** A message that is linked leaves its sender's hands for the end of the queue, an urgent one for its front; the first
      receiver is resumed. */
  lemma LinkExactly(q: Mq, n: Node)
    requires Sound(q.recv) && n in q.filling
    ensures var q' := Link(q, n);
            q'.queue == q.queue + [n] && q'.filling + {n} == q.filling && n !in q'.filling && FirstResumed(q.recv, q'.recv)
            && q' == q.(queue := q'.queue, filling := q'.filling, recv := q'.recv)
    ensures LinkUrgent(q, n) == Link(q, n).(queue := [n] + q.queue)
  {
    hide FirstResumed, WakeFirst;
    Resumed(q.recv);
  }

  /** A receiver gets the first message exactly when there is one; else it is refused, or queues. */
  lemma TakeMessageExactly(q: Mq, who: Option<Tid>, wait: Wait, flag: Flag, prio: Tid -> nat)
    requires Sound(q.recv) && (wait != NoWait ==> who.Some?) && (who.Some? ==> who.value !in q.recv.queue)
    ensures var (q', o) := TakeMessage(q, who, wait, flag, prio);
            && (o.Holds? <==> q.queue != []) && (o == Refused <==> q.queue == [] && wait == NoWait)
            && (o == Blocked <==> q.queue == [] && wait != NoWait)
            && q' == q.(queue := q'.queue, reading := q'.reading, recv := q'.recv)
            && (o.Holds? ==> q.queue == [o.node] + q'.queue && q'.reading == q.reading + {o.node})
            && (!o.Holds? ==> q'.queue == [] && q'.reading == q.reading)
            && (o != Blocked ==> q'.recv.queue == q.recv.queue)
            && (o == Blocked ==> NowWaits(q.recv, q'.recv, who.value, wait))
  {
    hide Block, NowWaits;
    if q.queue == [] && wait != NoWait { Waits(q.recv, who.value, flag, wait, prio); }
  }

  /** A node that was read is the first free one again, and the first sender is resumed. */
  lemma PutBackExactly(q: Mq, n: Node)
    requires Sound(q.send) && n in q.reading
    ensures var q' := PutBack(q, n);
            && q'.free == [n] + q.free && q'.reading + {n} == q.reading && n !in q'.reading && FirstResumed(q.send, q'.send)
            && q' == q.(free := q'.free, reading := q'.reading, send := q'.send)
  {
    hide FirstResumed, WakeFirst;
    Resumed(q.send);
  }

  /** A reset frees every queued node, and nobody waits; nodes in threads' hands stay there. */
  lemma ResetExactly(q: Mq)
    requires Sound(q.send) && Sound(q.recv)
    ensures var q' := Reset(q);
            && q'.queue == [] && multiset(q'.free) == multiset(q.queue) + multiset(q.free)
            && q'.filling == q.filling && q'.reading == q.reading && q'.data == q.data
            && q'.recv.queue == [] && q'.send.queue == [] && q'.recv.woken == q.recv.woken && q'.send.woken == q.send.woken
  {
    DismissMeaning(q.recv);
    DismissMeaning(q.send);
  }

  // ---- Runs --------------------------------------------------------------------------------

  datatype Action =
    | TakeFreeAct(who: Option<Tid>, wait: Wait)
    | FillAct(node: Node, bytes: Bytes)
    | LinkAct(node: Node)
    | UrgentAct(node: Node)
    | TakeMessageAct(who: Option<Tid>, wait: Wait)
    | CopyAct(node: Node, length: nat)
    | PutBackAct(node: Node)
    | RecvExpires(t: Tid)
    | SendExpires(t: Tid)
    | ResetAct

  /** The caller is not suspended, and uses the node it holds. */
  predicate Enabled(q: Mq, a: Action) {
    match a
    case TakeFreeAct(who, wait) =>
      (wait != NoWait ==> who.Some?) && (who.Some? ==> who.value !in q.send.queue && who.value !in q.recv.queue)
    case TakeMessageAct(who, wait) =>
      (wait != NoWait ==> who.Some?) && (who.Some? ==> who.value !in q.send.queue && who.value !in q.recv.queue)
    case FillAct(n, _) => n in q.filling && n < |q.data|
    case LinkAct(n) => n in q.filling
    case UrgentAct(n) => n in q.filling
    case CopyAct(n, _) => n in q.reading && n < |q.data|
    case PutBackAct(n) => n in q.reading
    case RecvExpires(t) => t in q.recv.armed
    case SendExpires(t) => t in q.send.armed
    case ResetAct => true
  }

  function Apply(q: Mq, a: Action, flag: Flag, prio: Tid -> nat): (Mq, Outcome)
    requires Enabled(q, a)
  {
    match a
    case TakeFreeAct(who, wait) => TakeFree(q, who, wait, flag, prio)
    case FillAct(n, bytes) => (Fill(q, n, bytes), Done)
    case LinkAct(n) => (Link(q, n), Done)
    case UrgentAct(n) => (LinkUrgent(q, n), Done)
    case TakeMessageAct(who, wait) => TakeMessage(q, who, wait, flag, prio)
    case CopyAct(n, length) =>
      (q, Read(if length <= |q.data[n]| then q.data[n][..length] else q.data[n]))
    case PutBackAct(n) => (PutBack(q, n), Done)
    case RecvExpires(t) => (q.(recv := Expire(q.recv, t)), Done)
    case SendExpires(t) => (q.(send := Expire(q.send, t)), Done)
    case ResetAct => (Reset(q), Done)
  }

  /** Every node is in exactly one place: queued, free, or in the hands of one thread. */
  ghost predicate Partition(q: Mq) {
    multiset(q.queue) + multiset(q.free) + multiset(q.filling) + multiset(q.reading) == multiset(Pool(|q.data|))
  }

  ghost predicate Kept(q: Mq) {
    && Partition(q)
    && Sound(q.recv) && NoneLost(q.recv, |q.queue|)
    && Sound(q.send) && NoneLost(q.send, |q.free|)
  }

  lemma PartitionStep(q: Mq, a: Action, flag: Flag, prio: Tid -> nat)
    requires Partition(q) && Enabled(q, a)
    ensures Partition(Apply(q, a, flag, prio).0)
  {
    hide Block, Expire, WakeFirst, Entered, Dismiss, Pool, Partition, Reversed;
    var p := Apply(q, a, flag, prio).0;
    match a
    case TakeFreeAct(_, _) => if q.free != [] { FreeTaken(q, p); } else { Unmoved(q, p); }
    case TakeMessageAct(_, _) => if q.queue != [] { MessageTaken(q, p); } else { Unmoved(q, p); }
    case LinkAct(n) => Linked(q, p, n);
    case UrgentAct(n) => Linked(q, p, n);
    case PutBackAct(n) => FreeGiven(q, p, n);
    case ResetAct => AllGiven(q, p);
    case _ => Unmoved(q, p);
  }

  lemma Unmoved(q: Mq, p: Mq)
    requires Partition(q) && p.queue == q.queue && p.free == q.free
    requires p.filling == q.filling && p.reading == q.reading && |p.data| == |q.data|
    ensures Partition(p)
  {
  }

  lemma FreeTaken(q: Mq, p: Mq)
    requires Partition(q) && q.free != [] && p.queue == q.queue && p.free == q.free[1..]
    requires p.filling == q.filling + {q.free[0]} && p.reading == q.reading && p.data == q.data
    ensures Partition(p)
  {
    hide Pool;
    NotElsewhere(q, q.free[0]);
    Takes(q.free, q.filling);
    Regroup(multiset(q.free), multiset(q.filling), multiset(p.free), multiset(p.filling), multiset(q.queue), multiset(q.reading));
  }

  lemma MessageTaken(q: Mq, p: Mq)
    requires Partition(q) && q.queue != [] && p.queue == q.queue[1..] && p.free == q.free
    requires p.filling == q.filling && p.reading == q.reading + {q.queue[0]} && p.data == q.data
    ensures Partition(p)
  {
    hide Pool;
    NotElsewhere(q, q.queue[0]);
    Takes(q.queue, q.reading);
    Regroup(multiset(q.queue), multiset(q.reading), multiset(p.queue), multiset(p.reading), multiset(q.free), multiset(q.filling));
  }

  lemma Linked(q: Mq, p: Mq, n: Node)
    requires Partition(q) && n in q.filling && (p.queue == q.queue + [n] || p.queue == [n] + q.queue)
    requires p.free == q.free && p.filling == q.filling - {n} && p.reading == q.reading && p.data == q.data
    ensures Partition(p)
  {
    hide Pool;
    Gives(q.queue, q.filling, n);
  }

  lemma FreeGiven(q: Mq, p: Mq, n: Node)
    requires Partition(q) && n in q.reading && p.queue == q.queue && p.free == [n] + q.free
    requires p.filling == q.filling && p.reading == q.reading - {n} && p.data == q.data
    ensures Partition(p)
  {
    hide Pool;
    Gives(q.free, q.reading, n);
  }

  lemma AllGiven(q: Mq, p: Mq)
    requires Partition(q) && p.queue == [] && p.free == Reversed(q.queue) + q.free
    requires p.filling == q.filling && p.reading == q.reading && p.data == q.data
    ensures Partition(p)
  {
    hide Pool;
    assert multiset(p.free) == multiset(q.queue) + multiset(q.free);
  }

  lemma Regroup(a: multiset<Node>, b: multiset<Node>, a': multiset<Node>, b': multiset<Node>, c: multiset<Node>,
    d: multiset<Node>)
    requires a + b == a' + b'
    ensures a + c + d + b == a' + c + d + b' && c + a + b + d == c + a' + b' + d
  {
    assert a + c + d + b == (a + b) + c + d;
    assert c + a + b + d == (a + b) + c + d;
  }

  /** The first node of a list goes into a thread's hands. */
  lemma Takes(s: seq<Node>, held: set<Node>)
    requires s != [] && s[0] !in held
    ensures multiset(s) + multiset(held) == multiset(s[1..]) + multiset(held + {s[0]})
  {
    assert s == [s[0]] + s[1..];
    assert multiset(held + {s[0]}) == multiset(held) + multiset{s[0]};
  }

  /** A node in a thread's hands goes to either end of a list. */
  lemma Gives(s: seq<Node>, held: set<Node>, n: Node)
    requires n in held
    ensures multiset(s) + multiset(held) == multiset([n] + s) + multiset(held - {n})
    ensures multiset(s) + multiset(held) == multiset(s + [n]) + multiset(held - {n})
  {
    assert multiset(held) == multiset(held - {n}) + multiset{n};
  }

  /** A node on one of the lists is in nobody's hands. */
  lemma NotElsewhere(q: Mq, n: Node)
    requires Partition(q)
    ensures n in q.queue || n in q.free ==> n !in q.filling && n !in q.reading
    ensures n in q.queue ==> n !in q.free
    ensures n in q.filling ==> n !in q.reading
    ensures n in q.queue || n in q.free || n in q.filling || n in q.reading <==> n < |q.data|
  {
    var all := multiset(q.queue) + multiset(q.free) + multiset(q.filling) + multiset(q.reading);
    assert all[n] == multiset(Pool(|q.data|))[n] <= 1;
    assert n in q.queue ==> multiset(q.queue)[n] >= 1;
    assert n in q.free ==> multiset(q.free)[n] >= 1;
    assert all[n] == multiset(q.queue)[n] + multiset(q.free)[n] + multiset(q.filling)[n] + multiset(q.reading)[n];
  }

  lemma ListsDistinct(q: Mq)
    requires Partition(q)
    ensures Distinct(q.queue) && Distinct(q.free)
  {
    var all := multiset(Pool(|q.data|));
    ListDistinct(q.queue, all);
    ListDistinct(q.free, all);
  }

  lemma ApplyKeeps(q: Mq, a: Action, flag: Flag, prio: Tid -> nat)
    requires Kept(q) && Enabled(q, a)
    ensures Kept(Apply(q, a, flag, prio).0)
  {
    hide Sound, NoneLost, WakeFirst, Expire, Block, Entered, Partition, Reversed;
    PartitionStep(q, a, flag, prio);
    match a
    case TakeFreeAct(who, wait) =>
      EnteredSound(q.send, who, |q.free|);
      if who.Some? { BlockSound(Entered(q.send, who), who.value, flag, wait, prio); }
    case TakeMessageAct(who, wait) =>
      EnteredSound(q.recv, who, |q.queue|);
      if who.Some? { BlockSound(Entered(q.recv, who), who.value, flag, wait, prio); }
    case LinkAct(n) => WakeSound(q.recv, |q.queue|);
    case UrgentAct(n) => WakeSound(q.recv, |q.queue|);
    case PutBackAct(n) => WakeSound(q.send, |q.free|);
    case RecvExpires(t) => ExpireSound(q.recv, t, |q.queue|);
    case SendExpires(t) => ExpireSound(q.send, t, |q.free|);
    case ResetAct => DismissSound(q.recv, 0); DismissSound(q.send, |q.queue| + |q.free|);
    case _ =>
  }

  ghost predicate Run(qs: seq<Mq>, acts: seq<Action>, flag: Flag, prios: seq<Tid -> nat>) {
    && |qs| == |acts| + 1 && |prios| == |acts|
    && forall k | 0 <= k < |acts| ::
         Enabled(qs[k], acts[k]) && qs[k + 1] == Apply(qs[k], acts[k], flag, prios[k]).0
  }

  /** In every state of every run, each node is in exactly one place and no wake-up is lost. */
  lemma {:induction false} RunKeeps(qs: seq<Mq>, acts: seq<Action>, flag: Flag, prios: seq<Tid -> nat>)
    requires Run(qs, acts, flag, prios) && Kept(qs[0])
    ensures Kept(qs[|acts|])
    ensures var q := qs[|acts|];
            && (q.recv.queue != [] ==> |q.queue| <= |q.recv.woken|)
            && (q.send.queue != [] ==> |q.free| <= |q.send.woken|)
  {
    hide Apply, Enabled, Partition, Sound;
    if acts != [] {
      var n := |acts| - 1;
      RunKeeps(qs[..n + 1], acts[..n], flag, prios[..n]);
      ApplyKeeps(qs[n], acts[n], flag, prios[n]);
    }
  }

  // ---- Messages ----------------------------------------------------------------------------

  /** What the queued nodes hold, first to last. */
  function Messages(q: seq<Node>, data: seq<Bytes>): (m: seq<Bytes>)
    ensures |m| == |q|
    ensures forall i | 0 <= i < |q| :: m[i] == if q[i] < |data| then data[q[i]] else []
  {
    seq(|q|, i requires 0 <= i < |q| => if q[i] < |data| then data[q[i]] else [])
  }

  function At(q: Mq, n: Node): Bytes {
    if n < |q.data| then q.data[n] else []
  }

  function In(q: Mq, a: Action): seq<Bytes> {
    if a.LinkAct? || a.UrgentAct? then [At(q, a.node)] else []
  }

  function Out(q: Mq, a: Action, o: Outcome): seq<Bytes> {
    if a.TakeMessageAct? && o.Holds? then [At(q, o.node)] else []
  }

  /** One step: messages enter at the back, urgent ones at the front, and leave at the front; what a
      thread does outside the lock changes neither a queued message nor one that is being read. */
  lemma StepMessages(q: Mq, a: Action, flag: Flag, prio: Tid -> nat)
    requires Partition(q) && Enabled(q, a) && a != ResetAct
    ensures var (q', o) := Apply(q, a, flag, prio);
            && (if a.UrgentAct? then Out(q, a, o) == [] && Messages(q'.queue, q'.data) == In(q, a) + Messages(q.queue, q.data)
                else Messages(q.queue, q.data) + In(q, a) == Out(q, a, o) + Messages(q'.queue, q'.data))
            && (forall n | n in q.reading :: At(q', n) == At(q, n))
  {
    hide Block, Expire, WakeFirst, Entered, Partition, Messages, Fill;
    match a
    case FillAct(n, bytes) => FillUnseen(q, n, bytes);
    case LinkAct(n) => MessagesJoin(q.queue, [n], q.data); MessagesOne(n, q.data);
    case UrgentAct(n) => MessagesJoin([n], q.queue, q.data); MessagesOne(n, q.data);
    case TakeMessageAct(_, _) =>
      if q.queue != [] {
        assert q.queue == [q.queue[0]] + q.queue[1..];
        MessagesJoin([q.queue[0]], q.queue[1..], q.data);
        MessagesOne(q.queue[0], q.data);
      }
    case _ =>
  }

  lemma MessagesJoin(a: seq<Node>, b: seq<Node>, data: seq<Bytes>)
    ensures Messages(a + b, data) == Messages(a, data) + Messages(b, data)
  {
  }

  lemma MessagesOne(n: Node, data: seq<Bytes>)
    ensures Messages([n], data) == [if n < |data| then data[n] else []]
  {
  }

  lemma FillUnseen(q: Mq, n: Node, bytes: Bytes)
    requires Partition(q) && n in q.filling && n < |q.data|
    ensures var q' := Fill(q, n, bytes);
            && Messages(q.queue, q'.data) == Messages(q.queue, q.data)
            && q'.queue == q.queue && forall m | m in q.reading :: At(q', m) == At(q, m)
  {
    hide Partition;
    NotElsewhere(q, n);
    forall m | m in q.reading ensures m != n { NotElsewhere(q, m); }
    assert forall i | 0 <= i < |q.queue| :: q.queue[i] in q.queue;
  }

  ghost function Accepted(qs: seq<Mq>, acts: seq<Action>): seq<Bytes>
    requires |qs| == |acts| + 1
  {
    if acts == [] then []
    else Accepted(qs[..|acts|], acts[..|acts| - 1]) + In(qs[|acts| - 1], acts[|acts| - 1])
  }

  ghost function Delivered(qs: seq<Mq>, acts: seq<Action>, flag: Flag, prios: seq<Tid -> nat>): seq<Bytes>
    requires Run(qs, acts, flag, prios)
  {
    if acts == [] then []
    else
      var n := |acts| - 1;
      Delivered(qs[..n + 1], acts[..n], flag, prios[..n])
      + Out(qs[n], acts[n], Apply(qs[n], acts[n], flag, prios[n]).1)
  }

  /** Without a reset, every linked message is received once or still queued; without urgent messages
      too, messages are received in the order they were linked. */
  lemma {:induction false} Conserved(qs: seq<Mq>, acts: seq<Action>, flag: Flag, prios: seq<Tid -> nat>)
    requires Run(qs, acts, flag, prios) && Kept(qs[0]) && qs[0].queue == []
    requires ResetAct !in acts
    ensures var last := qs[|acts|]; var held := Messages(last.queue, last.data);
            && multiset(Accepted(qs, acts)) == multiset(Delivered(qs, acts, flag, prios)) + multiset(held)
            && ((forall a | a in acts :: !a.UrgentAct?) ==>
                  Accepted(qs, acts) == Delivered(qs, acts, flag, prios) + held)
  {
    hide Apply, Enabled, In, Out, Kept, Messages;
    if acts == [] {
      assert Messages(qs[0].queue, qs[0].data) == [];
    } else {
      var n := |acts| - 1;
      assert acts[n] in acts && forall x | x in acts[..n] :: x in acts;
      Conserved(qs[..n + 1], acts[..n], flag, prios[..n]);
      RunKeeps(qs[..n + 1], acts[..n], flag, prios[..n]);
      OnlyPartition(qs[n]);
      StepMessages(qs[n], acts[n], flag, prios[n]);
      var got, o := Delivered(qs[..n + 1], acts[..n], flag, prios[..n]), Apply(qs[n], acts[n], flag, prios[n]).1;
      var acc, a := Accepted(qs[..n + 1], acts[..n]), acts[n];
      var m, m' := Messages(qs[n].queue, qs[n].data), Messages(qs[n + 1].queue, qs[n + 1].data);
      MixedOrder(m, In(qs[n], a), Out(qs[n], a, o), m');
      Conserve(acc, got, m, In(qs[n], a), Out(qs[n], a, o), m');
      if forall x | x in acts :: !x.UrgentAct? { ConserveOrder(acc, got, m, In(qs[n], a), Out(qs[n], a, o), m'); }
    }
  }

  lemma OnlyPartition(q: Mq)
    requires Kept(q)
    ensures Partition(q)
  {
  }

  // ---- What a receiver reads ---------------------------------------------------------------

  /** A read gives the front of the message, of the length asked for or the whole. */
  lemma CopyExactly(q: Mq, n: Node, length: nat, flag: Flag, prio: Tid -> nat)
    requires Enabled(q, CopyAct(n, length))
    ensures var (q', o) := Apply(q, CopyAct(n, length), flag, prio);
            q' == q && o.Read? && |o.bytes| <= length && o.bytes <= q.data[n]
            && (|o.bytes| < length ==> o.bytes == q.data[n])
  {
  }

  /** Only its own fill changes what a node holds. */
  lemma AtKept(q: Mq, a: Action, flag: Flag, prio: Tid -> nat, n: Node)
    requires Enabled(q, a) && !(a.FillAct? && a.node == n)
    ensures At(Apply(q, a, flag, prio).0, n) == At(q, n)
  {
    hide Block, Expire, WakeFirst, Entered, Dismiss;
  }

  /** A message that is queued or being read stays so until its node is freed. */
  lemma StaysSent(q: Mq, a: Action, flag: Flag, prio: Tid -> nat, n: Node)
    requires Partition(q) && Enabled(q, a) && (n in q.queue || n in q.reading)
    requires n !in Apply(q, a, flag, prio).0.free
    ensures var q' := Apply(q, a, flag, prio).0; n in q'.queue || n in q'.reading
    ensures !(a.FillAct? && a.node == n)
  {
    hide Partition, Block, Expire, WakeFirst, Entered, Dismiss;
    NotElsewhere(q, n);
    var q' := Apply(q, a, flag, prio).0;
    PartitionStep(q, a, flag, prio);
    NotElsewhere(q', n);
    Hands(q, a, flag, prio, n);
  }

  lemma Hands(q: Mq, a: Action, flag: Flag, prio: Tid -> nat, n: Node)
    requires Enabled(q, a) && n !in q.free && n !in q.filling
    ensures n !in Apply(q, a, flag, prio).0.filling && |Apply(q, a, flag, prio).0.data| == |q.data|
  {
    hide Block, Expire, WakeFirst, Entered, Dismiss;
    if a.TakeFreeAct? && q.free != [] { assert q.free[0] in q.free; }
  }

  lemma {:induction false} HoldsStill(qs: seq<Mq>, acts: seq<Action>, flag: Flag, prios: seq<Tid -> nat>, n: Node, from: nat, to: nat)
    requires Run(qs, acts, flag, prios) && from <= to < |qs|
    requires forall k | from <= k < to :: !(acts[k].FillAct? && acts[k].node == n)
    ensures At(qs[to], n) == At(qs[from], n)
  {
    hide Apply, Enabled, At;
    if from < to {
      HoldsStill(qs, acts, flag, prios, n, from, to - 1);
      AtKept(qs[to - 1], acts[to - 1], flag, prios[to - 1], n);
    }
  }

  /** From the link on, until its node is freed, the message is queued or being read, and nobody fills its node. */
  lemma {:induction false} SentFrom(qs: seq<Mq>, acts: seq<Action>, flag: Flag, prios: seq<Tid -> nat>, n: Node, j: nat, to: nat)
    requires Run(qs, acts, flag, prios) && Kept(qs[0]) && j < to < |qs|
    requires acts[j] == LinkAct(n) || acts[j] == UrgentAct(n)
    requires forall k | j < k < |qs| :: n !in qs[k].free
    ensures n in qs[to].queue || n in qs[to].reading
    ensures forall k | j <= k < to :: !(acts[k].FillAct? && acts[k].node == n)
  {
    hide Enabled, Kept;
    if to == j + 1 {
      JustLinked(qs[j], acts[j], flag, prios[j], n);
    } else {
      hide Apply;
      SentFrom(qs, acts, flag, prios, n, j, to - 1);
      RunKeeps(qs[..to], acts[..to - 1], flag, prios[..to - 1]);
      OnlyPartition(qs[to - 1]);
      assert qs[to - 1 + 1] == Apply(qs[to - 1], acts[to - 1], flag, prios[to - 1]).0;
      StaysSent(qs[to - 1], acts[to - 1], flag, prios[to - 1], n);
    }
  }

  lemma JustLinked(q: Mq, a: Action, flag: Flag, prio: Tid -> nat, n: Node)
    requires Enabled(q, a) && (a == LinkAct(n) || a == UrgentAct(n))
    ensures n in Apply(q, a, flag, prio).0.queue
  {
    hide WakeFirst;
    var q' := Apply(q, a, flag, prio).0;
    if a.LinkAct? { assert q'.queue[|q.queue|] == n; } else { assert q'.queue[0] == n; }
  }

  /** End to end: a sender fills its node once and links it; whoever reads that message, before the node is freed, reads
      the bytes that were filled in, as far as it asks. */
  lemma ReadsWhatWasSent(qs: seq<Mq>, acts: seq<Action>, flag: Flag, prios: seq<Tid -> nat>, n: Node, bytes: Bytes,
                         j: nat, length: nat)
    requires Run(qs, acts, flag, prios) && Kept(qs[0]) && 0 < j < |acts| - 1
    requires acts[0] == FillAct(n, bytes) && Enabled(qs[0], acts[0]) && |bytes| <= |qs[0].data[n]|
    requires acts[j] == LinkAct(n) || acts[j] == UrgentAct(n)
    requires forall k | 0 < k < j :: !(acts[k].FillAct? && acts[k].node == n)
    requires forall k | j < k < |qs| :: n !in qs[k].free
    requires acts[|acts| - 1] == CopyAct(n, length)
    ensures var m := |acts| - 1; var o := Apply(qs[m], acts[m], flag, prios[m]).1;
            && o.Read? && |o.bytes| <= length
            && (if |o.bytes| <= |bytes| then o.bytes <= bytes else bytes <= o.bytes)
            && (length <= |bytes| ==> o.bytes == bytes[..length])
  {
    var m := |acts| - 1;
    hide Kept, Apply;
    SentFrom(qs, acts, flag, prios, n, j, m);
    HoldsStill(qs, acts, flag, prios, n, 1, m);
    FillIsStep(qs[0], n, bytes, flag, prios[0]);
    FillExactly(qs[0], n, bytes);
    CopyExactly(qs[m], n, length, flag, prios[m]);
    Fronts(At(qs[m], n), bytes, Apply(qs[m], acts[m], flag, prios[m]).1.bytes);
  }

  lemma FillIsStep(q: Mq, n: Node, bytes: Bytes, flag: Flag, prio: Tid -> nat)
    requires Enabled(q, FillAct(n, bytes))
    ensures Apply(q, FillAct(n, bytes), flag, prio).0 == Fill(q, n, bytes)
  {
  }

  /** Two beginnings of one sequence: the shorter is a beginning of the longer. */
  lemma Fronts(whole: Bytes, a: Bytes, b: Bytes)
    requires |a| <= |whole| && whole[..|a|] == a && b <= whole
    ensures if |b| <= |a| then b <= a else a <= b
  {
    if |b| <= |a| { assert whole[..|a|][..|b|] == whole[..|b|]; } else { assert whole[..|b|][..|a|] == whole[..|a|]; }
  }

  // ---- How a wait ends ---------------------------------------------------------------------

  /** What a step does for the receivers, and for the senders, that wait. */
  function RecvCause(a: Action): Cause {
    match a
    case LinkAct(_) => Resumes
    case UrgentAct(_) => Resumes
    case RecvExpires(t) => Expiry(t)
    case ResetAct => Dismisses
    case _ => Other
  }

  function SendCause(a: Action): Cause {
    match a
    case PutBackAct(_) => Resumes
    case SendExpires(t) => Expiry(t)
    case ResetAct => Dismisses
    case _ => Other
  }

  predicate RecvOf(a: Action, t: Tid) {
    a.TakeMessageAct? && a.who == Some(t)
  }

  predicate SendOf(a: Action, t: Tid) {
    a.TakeFreeAct? && a.who == Some(t)
  }

  lemma RecvExplained(q: Mq, a: Action, flag: Flag, prio: Tid -> nat, t: Tid)
    requires Kept(q) && Enabled(q, a) && !RecvOf(a, t)
    ensures Explained(q.recv, Apply(q, a, flag, prio).0.recv, RecvCause(a), t)
  {
    hide Sound, Explained, Block, WakeFirst, Dismiss, Expire, NoneLost, Partition;
    ChangesExplained(q.recv, t);
    match a
    case TakeMessageAct(who, wait) =>
      if q.queue == [] && wait != NoWait { BlockExplained(q.recv, who.value, flag, wait, prio, t); }
    case RecvExpires(u) => ArmedQueued(q.recv, u);
    case _ =>
  }

  lemma SendExplained(q: Mq, a: Action, flag: Flag, prio: Tid -> nat, t: Tid)
    requires Kept(q) && Enabled(q, a) && !SendOf(a, t)
    ensures Explained(q.send, Apply(q, a, flag, prio).0.send, SendCause(a), t)
  {
    hide Sound, Explained, Block, WakeFirst, Dismiss, Expire, NoneLost, Partition;
    ChangesExplained(q.send, t);
    match a
    case TakeFreeAct(who, wait) =>
      if q.free == [] && wait != NoWait { BlockExplained(q.send, who.value, flag, wait, prio, t); }
    case SendExpires(u) => ArmedQueued(q.send, u);
    case _ =>
  }

  /** A receive that blocks is a wait that ends once, before the thread enters the call's loop again: by a message
      linked, its own time-out, or a reset. */
  lemma RecvEndsOnce(qs: seq<Mq>, acts: seq<Action>, flag: Flag, prios: seq<Tid -> nat>, t: Tid,
                     ws: seq<Waiters>, cs: seq<Cause>)
    requires Run(qs, acts, flag, prios) && Kept(qs[0]) && acts != []
    requires RecvOf(acts[0], t) && Apply(qs[0], acts[0], flag, prios[0]).1 == Blocked
    requires forall k | 1 <= k < |acts| :: !RecvOf(acts[k], t)
    requires |ws| == |acts| && forall k | 0 <= k < |ws| :: ws[k] == qs[k + 1].recv
    requires |cs| == |acts| - 1 && forall k | 0 <= k < |cs| :: cs[k] == RecvCause(acts[k + 1])
    ensures EndedOnce(ws, cs, t)
  {
    hide Kept, Explained, Apply, RecvCause;
    assert t in ws[0].queue by { RecvBlocked(qs[0], acts[0], flag, prios[0], t); }
    forall k | 0 <= k < |cs| ensures Explained(ws[k], ws[k + 1], cs[k], t) {
      RunKeeps(qs[..k + 2], acts[..k + 1], flag, prios[..k + 1]);
      RecvExplained(qs[k + 1], acts[k + 1], flag, prios[k + 1], t);
    }
    WaitEndsOnce(ws, cs, t);
  }

  lemma RecvBlocked(q: Mq, a: Action, flag: Flag, prio: Tid -> nat, t: Tid)
    requires Kept(q) && Enabled(q, a) && RecvOf(a, t) && Apply(q, a, flag, prio).1 == Blocked
    ensures t in Apply(q, a, flag, prio).0.recv.queue
  {
    hide Partition;
    InsertDistinct(q.recv.queue, t, flag, prio);
  }

  /** So does a send that blocks: by a node given back, its own time-out, or a reset. */
  lemma SendEndsOnce(qs: seq<Mq>, acts: seq<Action>, flag: Flag, prios: seq<Tid -> nat>, t: Tid,
                     ws: seq<Waiters>, cs: seq<Cause>)
    requires Run(qs, acts, flag, prios) && Kept(qs[0]) && acts != []
    requires SendOf(acts[0], t) && Apply(qs[0], acts[0], flag, prios[0]).1 == Blocked
    requires forall k | 1 <= k < |acts| :: !SendOf(acts[k], t)
    requires |ws| == |acts| && forall k | 0 <= k < |ws| :: ws[k] == qs[k + 1].send
    requires |cs| == |acts| - 1 && forall k | 0 <= k < |cs| :: cs[k] == SendCause(acts[k + 1])
    ensures EndedOnce(ws, cs, t)
  {
    hide Kept, Explained, Apply, SendCause;
    assert t in ws[0].queue by { SendBlocked(qs[0], acts[0], flag, prios[0], t); }
    forall k | 0 <= k < |cs| ensures Explained(ws[k], ws[k + 1], cs[k], t) {
      RunKeeps(qs[..k + 2], acts[..k + 1], flag, prios[..k + 1]);
      SendExplained(qs[k + 1], acts[k + 1], flag, prios[k + 1], t);
    }
    WaitEndsOnce(ws, cs, t);
  }

  lemma SendBlocked(q: Mq, a: Action, flag: Flag, prio: Tid -> nat, t: Tid)
    requires Kept(q) && Enabled(q, a) && SendOf(a, t) && Apply(q, a, flag, prio).1 == Blocked
    ensures t in Apply(q, a, flag, prio).0.send.queue
  {
    hide Partition;
    InsertDistinct(q.send.queue, t, flag, prio);
  }
}
