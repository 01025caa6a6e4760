/** What the regions of the mailbox calls (ipc.c) do, on values, and what all runs of them keep. */
module MailboxSpec {
  import opened Basics
  import opened WaitQueue

  datatype Box = Box(size: nat, mails: seq<nat>, recv: Waiters, send: Waiters)

  datatype Outcome = Done | Got(mail: nat) | Refused | Blocked

  /** One region of rt_mb_send_wait: on the first entry, or after having been resumed. A caller that
      is an interrupt handler is no thread, and never waits. */
  function Send(b: Box, who: Option<Tid>, value: nat, wait: Wait, flag: Flag, prio: Tid -> nat): (Box, Outcome)
    requires wait != NoWait ==> who.Some?
  {
    var send := Entered(b.send, who);
    if |b.mails| == b.size then
      if wait == NoWait then (b.(send := send), Refused)
      else (b.(send := Block(send, who.value, flag, wait, prio)), Blocked)
    else (b.(mails := b.mails + [value], recv := WakeFirst(b.recv), send := send), Done)
  }

  /** rt_mb_urgent. */
  function Urgent(b: Box, value: nat): (Box, Outcome) {
    if |b.mails| == b.size then (b, Refused)
    else (b.(mails := [value] + b.mails, recv := WakeFirst(b.recv)), Done)
  }

  /** One region of rt_mb_recv. */
  function Recv(b: Box, who: Option<Tid>, wait: Wait, flag: Flag, prio: Tid -> nat): (Box, Outcome)
    requires wait != NoWait ==> who.Some?
  {
    var recv := Entered(b.recv, who);
    if b.mails == [] then
      if wait == NoWait then (b.(recv := recv), Refused)
      else (b.(recv := Block(recv, who.value, flag, wait, prio)), Blocked)
    else (b.(mails := b.mails[1..], recv := recv, send := WakeFirst(b.send)), Got(b.mails[0]))
  }

  /** rt_mb_control with RT_IPC_CMD_RESET. */
  function Reset(b: Box): Box {
    b.(mails := [], recv := Dismiss(b.recv), send := Dismiss(b.send))
  }

  /** A send stores its mail behind the others exactly when there is room, and resumes the first receiver; else it is
      refused, or the caller queues, and the mails stay. */
  lemma SendExactly(b: Box, who: Option<Tid>, value: nat, wait: Wait, flag: Flag, prio: Tid -> nat)
    requires Sound(b.send) && Sound(b.recv) && |b.mails| <= b.size
    requires (wait != NoWait ==> who.Some?) && (who.Some? ==> who.value !in b.send.queue)
    ensures var (b', o) := Send(b, who, value, wait, flag, prio);
            && (o == Done <==> |b.mails| < b.size) && (o == Refused <==> |b.mails| == b.size && wait == NoWait)
            && (o == Blocked <==> |b.mails| == b.size && wait != NoWait) && b'.size == b.size
            && (o == Done ==> b'.mails == b.mails + [value] && FirstResumed(b.recv, b'.recv) && b'.send.queue == b.send.queue)
            && (o != Done ==> b'.mails == b.mails && b'.recv == b.recv)
            && (o == Refused ==> b'.send.queue == b.send.queue)
            && (o == Blocked ==> NowWaits(b.send, b'.send, who.value, wait))
  {
    hide Block, WakeFirst, NowWaits, FirstResumed;
    Resumed(b.recv);
    if |b.mails| == b.size && wait != NoWait { Waits(b.send, who.value, flag, wait, prio); }
  }

  /** An urgent mail is stored in front of the others exactly when there is room; else it is refused. */
  lemma UrgentExactly(b: Box, value: nat)
    requires Sound(b.recv) && |b.mails| <= b.size
    ensures var (b', o) := Urgent(b, value);
            && (o == Done <==> |b.mails| < b.size) && (o == Refused <==> |b.mails| == b.size)
            && (o == Done ==> b' == b.(mails := [value] + b.mails, recv := b'.recv) && FirstResumed(b.recv, b'.recv))
            && (o == Refused ==> b' == b)
  {
    hide WakeFirst, FirstResumed;
    Resumed(b.recv);
  }

  /** A receive gets the first mail exactly when there is one, and resumes the first sender. */
  lemma RecvExactly(b: Box, who: Option<Tid>, wait: Wait, flag: Flag, prio: Tid -> nat)
    requires Sound(b.send) && Sound(b.recv) && |b.mails| <= b.size
    requires (wait != NoWait ==> who.Some?) && (who.Some? ==> who.value !in b.recv.queue)
    ensures var (b', o) := Recv(b, who, wait, flag, prio);
            && (o.Got? <==> b.mails != []) && (o == Refused <==> b.mails == [] && wait == NoWait)
            && (o == Blocked <==> b.mails == [] && wait != NoWait) && b'.size == b.size
            && (o.Got? ==> b.mails == [o.mail] + b'.mails && FirstResumed(b.send, b'.send) && b'.recv.queue == b.recv.queue)
            && (!o.Got? ==> b'.mails == [] && b'.send == b.send)
            && (o == Refused ==> b'.recv.queue == b.recv.queue)
            && (o == Blocked ==> NowWaits(b.recv, b'.recv, who.value, wait))
  {
    hide Block, WakeFirst, NowWaits, FirstResumed;
    Resumed(b.send);
    if b.mails == [] && wait != NoWait { Waits(b.recv, who.value, flag, wait, prio); }
  }

  /** A reset leaves no mail and nobody waiting. */
  lemma ResetExactly(b: Box)
    requires Sound(b.send) && Sound(b.recv)
    ensures var b' := Reset(b);
            b'.mails == [] && b'.size == b.size && b'.recv.queue == [] && b'.send.queue == []
            && b'.recv.woken == b.recv.woken && b'.send.woken == b.send.woken
  {
    DismissMeaning(b.recv);
    DismissMeaning(b.send);
  }

  // ---- Runs --------------------------------------------------------------------------------

  datatype Action =
    | SendAct(who: Option<Tid>, value: nat, wait: Wait)
    | UrgentAct(value: nat)
    | RecvAct(who: Option<Tid>, wait: Wait)
    | RecvExpires(t: Tid)
    | SendExpires(t: Tid)
    | ResetAct

  /** A thread in a call is not also suspended; a timer that fires was running. */
  predicate Enabled(b: Box, a: Action) {
    match a
    case SendAct(who, _, wait) =>
      (wait != NoWait ==> who.Some?) && (who.Some? ==> who.value !in b.send.queue && who.value !in b.recv.queue)
    case RecvAct(who, wait) =>
      (wait != NoWait ==> who.Some?) && (who.Some? ==> who.value !in b.send.queue && who.value !in b.recv.queue)
    case RecvExpires(t) => t in b.recv.armed
    case SendExpires(t) => t in b.send.armed
    case _ => true
  }

  function Apply(b: Box, a: Action, flag: Flag, prio: Tid -> nat): (Box, Outcome)
    requires Enabled(b, a)
  {
    match a
    case SendAct(who, value, wait) => Send(b, who, value, wait, flag, prio)
    case UrgentAct(value) => Urgent(b, value)
    case RecvAct(who, wait) => Recv(b, who, wait, flag, prio)
    case RecvExpires(t) => (b.(recv := Expire(b.recv, t)), Done)
    case SendExpires(t) => (b.(send := Expire(b.send, t)), Done)
    case ResetAct => (Reset(b), Done)
  }

  /** Mails fit in the box, and neither receivers nor senders lose a wake-up. */
  ghost predicate Kept(b: Box) {
    && |b.mails| <= b.size
    && Sound(b.recv) && NoneLost(b.recv, |b.mails|)
    && Sound(b.send) && NoneLost(b.send, b.size - |b.mails|)
  }

  lemma ApplyKeeps(b: Box, a: Action, flag: Flag, prio: Tid -> nat)
    requires Kept(b) && Enabled(b, a)
    ensures Kept(Apply(b, a, flag, prio).0)
  {
    hide Sound, NoneLost, WakeFirst, Expire, Block, Entered;
    match a
    case SendAct(who, value, wait) =>
      EnteredSound(b.send, who, b.size - |b.mails|);
      WakeSound(b.recv, |b.mails|);
      if who.Some? { BlockSound(Entered(b.send, who), who.value, flag, wait, prio); }
    case UrgentAct(value) =>
      WakeSound(b.recv, |b.mails|);
      EnteredSound(b.send, None, b.size - |b.mails|);
      assert Entered(b.send, None) == b.send by { EnteredNone(b.send); }
    case RecvAct(who, wait) =>
      EnteredSound(b.recv, who, |b.mails|);
      WakeSound(b.send, b.size - |b.mails|);
      if who.Some? { BlockSound(Entered(b.recv, who), who.value, flag, wait, prio); }
    case RecvExpires(t) => ExpireSound(b.recv, t, |b.mails|);
    case SendExpires(t) => ExpireSound(b.send, t, b.size - |b.mails|);
    case ResetAct => DismissSound(b.recv, 0); DismissSound(b.send, b.size);
  }

  /** A run: any interleaving of the regions, under any priorities at each step. */
  ghost predicate Run(bs: seq<Box>, acts: seq<Action>, flag: Flag, prios: seq<Tid -> nat>) {
    && |bs| == |acts| + 1 && |prios| == |acts|
    && forall k | 0 <= k < |acts| ::
         Enabled(bs[k], acts[k]) && bs[k + 1] == Apply(bs[k], acts[k], flag, prios[k]).0
  }

  function Empty(size: nat): Box {
    Box(size, [], NOBODY, NOBODY)
  }

  /** No lost wake-up, in every state of every run. */
  lemma {:induction false} NoLostWakeUp(bs: seq<Box>, acts: seq<Action>, flag: Flag, prios: seq<Tid -> nat>)
    requires Run(bs, acts, flag, prios) && bs[0] == Empty(bs[0].size)
    ensures Kept(bs[|acts|])
    ensures var b := bs[|acts|];
            && (b.recv.queue != [] ==> |b.mails| <= |b.recv.woken|)
            && (b.send.queue != [] ==> b.size - |b.mails| <= |b.send.woken|)
  {
    if acts != [] {
      var n := |acts| - 1;
      NoLostWakeUp(bs[..n + 1], acts[..n], flag, prios[..n]);
      ApplyKeeps(bs[n], acts[n], flag, prios[n]);
    }
  }

  // ---- Mails -------------------------------------------------------------------------------

  /** The mail a step accepts, if any. */
  function In(a: Action, o: Outcome): seq<nat> {
    if (a.SendAct? || a.UrgentAct?) && o == Done then [a.value] else []
  }

  /** The mail a step delivers, if any. */
  function Out(o: Outcome): seq<nat> {
    if o.Got? then [o.mail] else []
  }

  /** All mails accepted in a run, in the order of the steps. */
  ghost function Accepted(bs: seq<Box>, acts: seq<Action>, flag: Flag, prios: seq<Tid -> nat>): seq<nat>
    requires Run(bs, acts, flag, prios)
  {
    if acts == [] then []
    else
      var n := |acts| - 1;
      Accepted(bs[..n + 1], acts[..n], flag, prios[..n]) + In(acts[n], Apply(bs[n], acts[n], flag, prios[n]).1)
  }

  /** All mails delivered in a run, in the order of the steps. */
  ghost function Delivered(bs: seq<Box>, acts: seq<Action>, flag: Flag, prios: seq<Tid -> nat>): seq<nat>
    requires Run(bs, acts, flag, prios)
  {
    if acts == [] then []
    else
      var n := |acts| - 1;
      Delivered(bs[..n + 1], acts[..n], flag, prios[..n]) + Out(Apply(bs[n], acts[n], flag, prios[n]).1)
  }

  lemma StepMails(b: Box, a: Action, flag: Flag, prio: Tid -> nat)
    requires Enabled(b, a) && a != ResetAct
    ensures var (b', o) := Apply(b, a, flag, prio);
            if a.UrgentAct? then Out(o) == [] && b'.mails == In(a, o) + b.mails
            else b.mails + In(a, o) == Out(o) + b'.mails
  {
    hide Block, Expire, WakeFirst, Entered;
  }

  /** Without a reset, every accepted mail is delivered once or still in the box; without urgent mails
      too, they are delivered in the order they were accepted. */
  lemma {:induction false} Conserved(bs: seq<Box>, acts: seq<Action>, flag: Flag, prios: seq<Tid -> nat>)
    requires Run(bs, acts, flag, prios) && bs[0].mails == []
    requires ResetAct !in acts
    ensures multiset(Accepted(bs, acts, flag, prios))
         == multiset(Delivered(bs, acts, flag, prios)) + multiset(bs[|acts|].mails)
    ensures (forall a | a in acts :: !a.UrgentAct?) ==>
              Accepted(bs, acts, flag, prios) == Delivered(bs, acts, flag, prios) + bs[|acts|].mails
  {
    hide Apply, Enabled, In, Out;
    if acts != [] {
      var n := |acts| - 1;
      assert acts[n] in acts && forall x | x in acts[..n] :: x in acts;
      Conserved(bs[..n + 1], acts[..n], flag, prios[..n]);
      StepMails(bs[n], acts[n], flag, prios[n]);
      var acc, got := Accepted(bs[..n + 1], acts[..n], flag, prios[..n]), Delivered(bs[..n + 1], acts[..n], flag, prios[..n]);
      var o, m, m' := Apply(bs[n], acts[n], flag, prios[n]).1, bs[n].mails, bs[n + 1].mails;
      MixedOrder(m, In(acts[n], o), Out(o), m');
      Conserve(acc, got, m, In(acts[n], o), Out(o), m');
      if forall a | a in acts :: !a.UrgentAct? { ConserveOrder(acc, got, m, In(acts[n], o), Out(o), m'); }
    }
  }

  // ---- How a wait ends ---------------------------------------------------------------------

  /** What a step does for the receivers, and for the senders, that wait. */
  function RecvCause(a: Action, o: Outcome): Cause {
    match a
    case SendAct(_, _, _) => if o == Done then Resumes else Other
    case UrgentAct(_) => if o == Done then Resumes else Other
    case RecvExpires(t) => Expiry(t)
    case ResetAct => Dismisses
    case _ => Other
  }

  function SendCause(a: Action, o: Outcome): Cause {
    match a
    case RecvAct(_, _) => if o.Got? then Resumes else Other
    case SendExpires(t) => Expiry(t)
    case ResetAct => Dismisses
    case _ => Other
  }

  predicate RecvOf(a: Action, t: Tid) {
    a.RecvAct? && a.who == Some(t)
  }

  predicate SendOf(a: Action, t: Tid) {
    a.SendAct? && a.who == Some(t)
  }

  lemma RecvExplained(b: Box, a: Action, flag: Flag, prio: Tid -> nat, t: Tid)
    requires Kept(b) && Enabled(b, a) && !RecvOf(a, t)
    ensures var (b', o) := Apply(b, a, flag, prio); Explained(b.recv, b'.recv, RecvCause(a, o), t)
  {
    hide Sound, Explained, Block, WakeFirst, Dismiss, Expire, NoneLost;
    ChangesExplained(b.recv, t);
    match a
    case RecvAct(who, wait) =>
      if b.mails == [] && wait != NoWait { BlockExplained(b.recv, who.value, flag, wait, prio, t); }
    case RecvExpires(u) => ArmedQueued(b.recv, u);
    case _ =>
  }

  lemma SendExplained(b: Box, a: Action, flag: Flag, prio: Tid -> nat, t: Tid)
    requires Kept(b) && Enabled(b, a) && !SendOf(a, t)
    ensures var (b', o) := Apply(b, a, flag, prio); Explained(b.send, b'.send, SendCause(a, o), t)
  {
    hide Sound, Explained, Block, WakeFirst, Dismiss, Expire, NoneLost;
    ChangesExplained(b.send, t);
    match a
    case SendAct(who, _, wait) =>
      if |b.mails| == b.size && wait != NoWait { BlockExplained(b.send, who.value, flag, wait, prio, t); }
    case SendExpires(u) => ArmedQueued(b.send, u);
    case _ =>
  }

  lemma {:induction false} KeptInRuns(bs: seq<Box>, acts: seq<Action>, flag: Flag, prios: seq<Tid -> nat>, k: nat)
    requires Run(bs, acts, flag, prios) && Kept(bs[0]) && k < |bs|
    ensures Kept(bs[k])
  {
    hide Kept;
    if k > 0 {
      KeptInRuns(bs, acts, flag, prios, k - 1);
      ApplyKeeps(bs[k - 1], acts[k - 1], flag, prios[k - 1]);
    }
  }

  /** A receive that blocks is a wait that ends once, before the thread enters the call's loop again: by a mail sent, its
      own time-out, or a reset. */
  lemma RecvEndsOnce(bs: seq<Box>, acts: seq<Action>, flag: Flag, prios: seq<Tid -> nat>, t: Tid,
                     ws: seq<Waiters>, cs: seq<Cause>)
    requires Run(bs, acts, flag, prios) && Kept(bs[0]) && acts != []
    requires RecvOf(acts[0], t) && Apply(bs[0], acts[0], flag, prios[0]).1 == Blocked
    requires forall k | 1 <= k < |acts| :: !RecvOf(acts[k], t)
    requires |ws| == |acts| && forall k | 0 <= k < |ws| :: ws[k] == bs[k + 1].recv
    requires |cs| == |acts| - 1
    requires forall k | 0 <= k < |cs| ::
               cs[k] == RecvCause(acts[k + 1], Apply(bs[k + 1], acts[k + 1], flag, prios[k + 1]).1)
    ensures EndedOnce(ws, cs, t)
  {
    hide Kept, Explained, Apply, RecvCause;
    assert t in ws[0].queue by { RecvBlocked(bs[0], acts[0], flag, prios[0], t); }
    forall k | 0 <= k < |cs| ensures Explained(ws[k], ws[k + 1], cs[k], t) {
      KeptInRuns(bs, acts, flag, prios, k + 1);
      RecvExplained(bs[k + 1], acts[k + 1], flag, prios[k + 1], t);
    }
    WaitEndsOnce(ws, cs, t);
  }

  lemma RecvBlocked(b: Box, a: Action, flag: Flag, prio: Tid -> nat, t: Tid)
    requires Kept(b) && Enabled(b, a) && RecvOf(a, t) && Apply(b, a, flag, prio).1 == Blocked
    ensures t in Apply(b, a, flag, prio).0.recv.queue
  {
    InsertDistinct(b.recv.queue, t, flag, prio);
  }

  /** So does a send that blocks: by a mail received, its own time-out, or a reset. */
  lemma SendEndsOnce(bs: seq<Box>, acts: seq<Action>, flag: Flag, prios: seq<Tid -> nat>, t: Tid,
                     ws: seq<Waiters>, cs: seq<Cause>)
    requires Run(bs, acts, flag, prios) && Kept(bs[0]) && acts != []
    requires SendOf(acts[0], t) && Apply(bs[0], acts[0], flag, prios[0]).1 == Blocked
    requires forall k | 1 <= k < |acts| :: !SendOf(acts[k], t)
    requires |ws| == |acts| && forall k | 0 <= k < |ws| :: ws[k] == bs[k + 1].send
    requires |cs| == |acts| - 1
    requires forall k | 0 <= k < |cs| ::
               cs[k] == SendCause(acts[k + 1], Apply(bs[k + 1], acts[k + 1], flag, prios[k + 1]).1)
    ensures EndedOnce(ws, cs, t)
  {
    hide Kept, Explained, Apply, SendCause;
    assert t in ws[0].queue by { SendBlocked(bs[0], acts[0], flag, prios[0], t); }
    forall k | 0 <= k < |cs| ensures Explained(ws[k], ws[k + 1], cs[k], t) {
      KeptInRuns(bs, acts, flag, prios, k + 1);
      SendExplained(bs[k + 1], acts[k + 1], flag, prios[k + 1], t);
    }
    WaitEndsOnce(ws, cs, t);
  }

  lemma SendBlocked(b: Box, a: Action, flag: Flag, prio: Tid -> nat, t: Tid)
    requires Kept(b) && Enabled(b, a) && SendOf(a, t) && Apply(b, a, flag, prio).1 == Blocked
    ensures t in Apply(b, a, flag, prio).0.send.queue
  {
    InsertDistinct(b.send.queue, t, flag, prio);
  }
}
