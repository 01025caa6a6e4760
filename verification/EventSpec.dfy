/** What the event-set calls (ipc.c) do, on values, and what all runs of them keep. */
module EventSpec {
  import opened Basics
  import opened WaitQueue

  type Bits = bv32

  /** The event_set and event_info fields of a thread. */
  datatype Want = Want(bits: Bits, and: bool, or: bool, clear: bool)

  /** `want` holds the fields of every thread that waits or was woken with an event. */
  datatype Ev = Ev(bits: Bits, want: map<Tid, Want>, wait: Waiters)

  datatype Outcome = Done | Received(bits: Bits) | TimedOut | Error | Invalid | Blocked

  function Both(a: Bits, b: Bits): Bits { a & b }

  function Either(a: Bits, b: Bits): Bits { a | b }

  function Minus(a: Bits, b: Bits): Bits { a & !b }

  /** Every event of `a` is one of `b`. */
  predicate Within(a: Bits, b: Bits) { a & b == a }

  predicate Satisfied(w: Want, bits: Bits) {
    if w.and then Both(bits, w.bits) == w.bits else w.or && Both(bits, w.bits) != 0
  }

  /** What a satisfied thread gets from rt_event_send. */
  function Got(w: Want, bits: Bits): Bits {
    if w.and then w.bits else Both(w.bits, bits)
  }

  /** The events left once those a satisfied thread asked for are delivered to it. */
  function LeftBy(w: Want, bits: Bits): Bits {
    if w.clear then Minus(bits, Both(bits, w.bits)) else bits
  }

  // ---- The walk of rt_event_send over the suspended threads ----------------------------------

  /** `valid` is false when the walk stopped at a thread that asked for neither AND nor OR. */
  datatype Walked = Walked(kept: seq<Tid>, woken: set<Tid>, bits: Bits, want: map<Tid, Want>, valid: bool)

  function WantOf(want: map<Tid, Want>, t: Tid): Want {
    if t in want then want[t] else Want(0, false, false, false)
  }

  function Walk(q: seq<Tid>, bits: Bits, want: map<Tid, Want>): Walked {
    if q == [] then Walked([], {}, bits, want, true)
    else
      var t, w := q[0], WantOf(want, q[0]);
      if !w.and && !w.or then Walked(q, {}, bits, want, false)
      else if Satisfied(w, bits) then
        var left := if w.clear then Minus(bits, Got(w, bits)) else bits;
        var r := Walk(q[1..], left, want[t := w.(bits := Got(w, bits))]);
        r.(woken := r.woken + {t})
      else
        var r := Walk(q[1..], bits, want);
        r.(kept := [t] + r.kept)
  }

  // The laws of the bit operations that the proofs use.

  lemma MinusWithin(a: Bits, b: Bits)
    ensures Within(Minus(a, b), a)
  {
  }

  lemma WithinSelf(a: Bits)
    ensures Within(a, a)
  {
  }

  lemma WithinTrans(a: Bits, b: Bits, c: Bits)
    requires Within(a, b) && Within(b, c)
    ensures Within(a, c)
  {
  }

  lemma MinusBoth(a: Bits, b: Bits)
    ensures Minus(a, b) == Minus(a, Both(a, b))
  {
  }

  /** The sets of events only lose members on the walk, so who was passed over stays unsatisfied. */
  lemma Antitone(w: Want, more: Bits, less: Bits)
    requires Within(less, more) && !Satisfied(w, more)
    ensures !Satisfied(w, less)
  {
    hide Both, Within;
    Fewer(w.bits, more, less);
  }

  lemma Fewer(a: Bits, more: Bits, less: Bits)
    requires Within(less, more)
    ensures Both(less, a) == a ==> Both(more, a) == a
    ensures Both(less, a) != 0 ==> Both(more, a) != 0
  {
    assert less & a == less & (more & a);
  }

  /** What a satisfied thread gets is the part of its request that has occurred. */
  lemma GotIs(w: Want, bits: Bits)
    requires Satisfied(w, bits)
    ensures Got(w, bits) == Both(bits, w.bits)
  {
  }

  /** One step of the walk on the first thread of the list. */
  lemma WalkStep(q: seq<Tid>, bits: Bits, want: map<Tid, Want>)
    requires q != [] && Distinct(q)
    ensures q[0] !in q[1..] && Distinct(q[1..])
    ensures var t, w, r := q[0], WantOf(want, q[0]), Walk(q, bits, want);
            if !w.and && !w.or then r == Walked(q, {}, bits, want, false)
            else if Satisfied(w, bits) then
              var rest := Walk(q[1..], LeftBy(w, bits), want[t := w.(bits := Both(bits, w.bits))]);
              r == rest.(woken := rest.woken + {t})
            else
              var rest := Walk(q[1..], bits, want);
              r == rest.(kept := [t] + rest.kept)
  {
    var w := WantOf(want, q[0]);
    if Satisfied(w, bits) { GotIs(w, bits); }
  }

  lemma LeftByWithin(w: Want, bits: Bits)
    ensures Within(LeftBy(w, bits), bits)
  {
    MinusWithin(bits, Both(bits, w.bits));
    WithinSelf(bits);
  }

  /** The walk leaves the threads it does not wake as they were, and only takes events away. */
  lemma {:induction false} WalkFrame(q: seq<Tid>, bits: Bits, want: map<Tid, Want>)
    requires Distinct(q)
    ensures var r := Walk(q, bits, want);
            && Within(r.bits, bits)
            && (forall t | t in r.kept :: t in q && t !in r.woken)
            && (forall t | t in r.woken :: t in q)
            && (forall t :: t !in r.woken ==> WantOf(r.want, t) == WantOf(want, t))
            && Distinct(r.kept)
  {
    hide Satisfied, Within, LeftBy, Walk, Both;
    if q == [] {
      WithinSelf(bits);
      assert Walk(q, bits, want) == Walked([], {}, bits, want, true) by { WalkEmpty(bits, want); }
    } else {
      var t, w := q[0], WantOf(want, q[0]);
      WalkStep(q, bits, want);
      WithinSelf(bits);
      if w.and || w.or {
        if Satisfied(w, bits) {
          LeftByWithin(w, bits);
          var next := want[t := w.(bits := Both(bits, w.bits))];
          WalkFrame(q[1..], LeftBy(w, bits), next);
          WithinTrans(Walk(q[1..], LeftBy(w, bits), next).bits, LeftBy(w, bits), bits);
        } else {
          WalkFrame(q[1..], bits, want);
        }
      }
    }
  }

  lemma WalkEmpty(bits: Bits, want: map<Tid, Want>)
    ensures Walk([], bits, want) == Walked([], {}, bits, want, true)
  {
  }

  /** After a complete walk nobody left on the list is satisfied. */
  lemma {:induction false} WalkLeavesNone(q: seq<Tid>, bits: Bits, want: map<Tid, Want>)
    requires Distinct(q)
    ensures var r := Walk(q, bits, want);
            r.valid ==> forall t | t in r.kept :: !Satisfied(WantOf(want, t), r.bits)
  {
    hide Satisfied, Within, LeftBy, Walk, Both;
    if q == [] {
      WalkEmpty(bits, want);
    } else {
      var t, w := q[0], WantOf(want, q[0]);
      WalkStep(q, bits, want);
      if w.and || w.or {
        if Satisfied(w, bits) {
          var next := want[t := w.(bits := Both(bits, w.bits))];
          WalkLeavesNone(q[1..], LeftBy(w, bits), next);
          WalkFrame(q[1..], LeftBy(w, bits), next);
        } else {
          WalkLeavesNone(q[1..], bits, want);
          WalkFrame(q[1..], bits, want);
          Antitone(w, bits, Walk(q[1..], bits, want).bits);
        }
      }
    }
  }

  /** The events delivered to the threads that clear what they get. */
  function Consumed(q: seq<Tid>, bits: Bits, want: map<Tid, Want>): Bits {
    if q == [] then 0
    else
      var t, w := q[0], WantOf(want, q[0]);
      if !w.and && !w.or then 0
      else if Satisfied(w, bits) then
        Either(if w.clear then Both(bits, w.bits) else 0,
               Consumed(q[1..], LeftBy(w, bits), want[t := w.(bits := Both(bits, w.bits))]))
      else Consumed(q[1..], bits, want)
  }

  lemma MinusEither(a: Bits, b: Bits, c: Bits)
    ensures Minus(Minus(a, b), c) == Minus(a, Either(b, c)) && Minus(a, 0) == a
    ensures Either(0, c) == c
  {
  }

  /** The walk takes away exactly the events delivered to threads that clear them. */
  lemma {:induction false} WalkConsumes(q: seq<Tid>, bits: Bits, want: map<Tid, Want>)
    requires Distinct(q)
    ensures Walk(q, bits, want).bits == Minus(bits, Consumed(q, bits, want))
  {
    hide Satisfied, Walk, Both, Minus, Either;
    MinusEither(bits, 0, 0);
    if q == [] {
      WalkEmpty(bits, want);
    } else {
      var t, w := q[0], WantOf(want, q[0]);
      WalkStep(q, bits, want);
      if w.and || w.or {
        if Satisfied(w, bits) {
          var next := want[t := w.(bits := Both(bits, w.bits))];
          WalkConsumes(q[1..], LeftBy(w, bits), next);
          MinusEither(bits, if w.clear then Both(bits, w.bits) else 0, Consumed(q[1..], LeftBy(w, bits), next));
        } else {
          WalkConsumes(q[1..], bits, want);
        }
      }
    }
  }

  /** Each woken thread gets, of what it asked for, the events that had occurred when the walk came to
      it; that was enough for it; and if it clears them, they are gone from then on. */
  lemma {:induction false} WalkDelivers(q: seq<Tid>, bits: Bits, want: map<Tid, Want>, t: Tid) returns (seen: Bits)
    requires Distinct(q) && t in Walk(q, bits, want).woken
    ensures var r := Walk(q, bits, want); var w := WantOf(want, t);
            && Within(seen, bits) && Within(r.bits, LeftBy(w, seen))
            && Satisfied(w, seen)
            && WantOf(r.want, t).bits == Both(seen, w.bits)
  {
    hide Satisfied, Within, LeftBy, Walk, Both;
    if q == [] {
      WalkEmpty(bits, want);
      seen := bits;
    } else {
      var w := WantOf(want, q[0]);
      WalkStep(q, bits, want);
      if Satisfied(w, bits) {
        var next := want[q[0] := w.(bits := Both(bits, w.bits))];
        WalkFrame(q[1..], LeftBy(w, bits), next);
        if t == q[0] {
          seen := bits;
          WithinSelf(bits);
        } else {
          seen := WalkDelivers(q[1..], LeftBy(w, bits), next, t);
          LeftByWithin(w, bits);
          WithinTrans(seen, LeftBy(w, bits), bits);
        }
      } else {
        WalkFrame(q[1..], bits, want);
        seen := WalkDelivers(q[1..], bits, want, t);
      }
    }
  }

  // ---- The calls ---------------------------------------------------------------------------

  function Send(e: Ev, bits: Bits): (Ev, Outcome) {
    if bits == 0 then (e, Error)
    else
      var r := Walk(e.wait.queue, Either(e.bits, bits), e.want);
      (Ev(r.bits, r.want, Waiters(r.kept, e.wait.armed - r.woken, e.wait.woken + r.woken)),
       if r.valid then Done else Invalid)
  }

  function Recv(e: Ev, who: Tid, w: Want, wait: Wait, flag: Flag, prio: Tid -> nat): (Ev, Outcome) {
    if w.bits == 0 then (e, Error)
    else if Satisfied(w, e.bits) then
      (e.(bits := if w.clear then Minus(e.bits, w.bits) else e.bits,
          want := e.want[who := w.(bits := Both(e.bits, w.bits))]),
       Received(Both(e.bits, w.bits)))
    else if wait == NoWait then (e, TimedOut)
    else (e.(want := e.want[who := w], wait := Block(e.wait, who, flag, wait, prio)), Blocked)
  }

  /** rt_event_control with RT_IPC_CMD_RESET. */
  function Reset(e: Ev): Ev {
    e.(bits := 0, wait := Dismiss(e.wait))
  }

  /** A thread that finds its events at once, and one that waits for them, get the same events and
      leave the same set behind; with CLEAR that is the set without exactly the delivered events. */
  lemma SameOnBothPaths(e: Ev, who: Tid, w: Want, wait: Wait, flag: Flag, prio: Tid -> nat)
    requires w.bits != 0 && (w.and || w.or) && Satisfied(w, e.bits)
    ensures var (now, o) := Recv(e, who, w, wait, flag, prio);
            var later := Walk([who], e.bits, e.want[who := w]);
            && o == Received(Both(e.bits, w.bits))
            && later.woken == {who} && WantOf(later.want, who).bits == Both(e.bits, w.bits)
            && later.bits == now.bits == LeftBy(w, e.bits)
  {
    hide Satisfied, Both, Minus, Walk;
    MinusBoth(e.bits, w.bits);
    WalkStep([who], e.bits, e.want[who := w]);
    assert [who][1..] == [];
    WalkEmpty(LeftBy(w, e.bits), e.want[who := w][who := w.(bits := Both(e.bits, w.bits))]);
  }

  // ---- Runs --------------------------------------------------------------------------------

  datatype Action =
    | SendAct(bits: Bits)
    | RecvAct(who: Tid, want: Want, wait: Wait)
    | Returns(t: Tid)
    | Expires(t: Tid)
    | ResetAct

  predicate Enabled(e: Ev, a: Action) {
    match a
    case RecvAct(who, w, _) => (w.and || w.or) && who !in e.wait.queue && who !in e.wait.woken
    case Returns(t) => t in e.wait.woken
    case Expires(t) => t in e.wait.armed
    case _ => true
  }

  function Apply(e: Ev, a: Action, flag: Flag, prio: Tid -> nat): (Ev, Outcome)
    requires Enabled(e, a)
  {
    match a
    case SendAct(bits) => Send(e, bits)
    case RecvAct(who, w, wait) => Recv(e, who, w, wait, flag, prio)
    case Returns(t) => (e.(wait := Enter(e.wait, t)), Received(WantOf(e.want, t).bits))
    case Expires(t) => (e.(wait := Expire(e.wait, t)), TimedOut)
    case ResetAct => (Reset(e), Done)
  }

  /** No thread on the list is one whose condition holds. */
  ghost predicate NoneStranded(e: Ev) {
    forall t | t in e.wait.queue ::
      var w := WantOf(e.want, t); (w.and || w.or) && w.bits != 0 && !Satisfied(w, e.bits)
  }

  ghost predicate Kept(e: Ev) {
    Sound(e.wait) && NoneStranded(e)
  }

  lemma {:induction false} WalkValid(q: seq<Tid>, bits: Bits, want: map<Tid, Want>)
    requires Distinct(q) && forall t | t in q :: WantOf(want, t).and || WantOf(want, t).or
    ensures Walk(q, bits, want).valid
  {
    hide Satisfied, Walk, LeftBy, Both;
    if q == [] {
      WalkEmpty(bits, want);
    } else {
      var t, w := q[0], WantOf(want, q[0]);
      WalkStep(q, bits, want);
      assert forall x | x in q[1..] :: x in q && x != t;
      WalkValid(q[1..], LeftBy(w, bits), want[t := w.(bits := Both(bits, w.bits))]);
      WalkValid(q[1..], bits, want);
    }
  }

  lemma SendKeeps(e: Ev, bits: Bits)
    requires Kept(e)
    ensures Kept(Send(e, bits).0) && (bits != 0 ==> Send(e, bits).1 == Done)
    ensures forall t | t in e.wait.woken :: WantOf(Send(e, bits).0.want, t) == WantOf(e.want, t)
  {
    hide Satisfied, Walk, Either, WantOf;
    WalkValid(e.wait.queue, Either(e.bits, bits), e.want);
    WalkFrame(e.wait.queue, Either(e.bits, bits), e.want);
    WalkLeavesNone(e.wait.queue, Either(e.bits, bits), e.want);
    WalkCovers(e.wait.queue, Either(e.bits, bits), e.want);
  }

  lemma {:induction false} WalkCovers(q: seq<Tid>, bits: Bits, want: map<Tid, Want>)
    requires Distinct(q)
    ensures forall t | t in q :: t in Walk(q, bits, want).kept || t in Walk(q, bits, want).woken
  {
    hide Satisfied, Walk, LeftBy, Both;
    if q != [] {
      var t, w := q[0], WantOf(want, q[0]);
      WalkStep(q, bits, want);
      WalkCovers(q[1..], LeftBy(w, bits), want[t := w.(bits := Both(bits, w.bits))]);
      WalkCovers(q[1..], bits, want);
    }
  }

  /** Taking events away leaves everybody on the list unsatisfied. */
  lemma ShrinkKeeps(e: Ev, bits: Bits)
    requires NoneStranded(e) && Within(bits, e.bits)
    ensures NoneStranded(e.(bits := bits))
  {
    hide Satisfied, Within;
    forall t | t in e.wait.queue ensures !Satisfied(WantOf(e.want, t), bits) {
      Antitone(WantOf(e.want, t), e.bits, bits);
    }
  }

  lemma RecvKeeps(e: Ev, who: Tid, w: Want, wait: Wait, flag: Flag, prio: Tid -> nat)
    requires Kept(e) && Enabled(e, RecvAct(who, w, wait))
    ensures Kept(Recv(e, who, w, wait, flag, prio).0)
  {
    hide Satisfied, Within, Both, Minus;
    if w.bits != 0 {
      if Satisfied(w, e.bits) {
        MinusWithin(e.bits, w.bits);
        WithinSelf(e.bits);
        ShrinkKeeps(e, if w.clear then Minus(e.bits, w.bits) else e.bits);
      } else if wait != NoWait {
        InsertDistinct(e.wait.queue, who, flag, prio);
        BlockSound(e.wait, who, flag, wait, prio);
      }
    }
  }

  /** Every step keeps the invariant, and leaves what was delivered to a woken thread. */
  lemma ApplyKeeps(e: Ev, a: Action, flag: Flag, prio: Tid -> nat)
    requires Kept(e) && Enabled(e, a)
    ensures var e' := Apply(e, a, flag, prio).0;
            && Kept(e')
            && forall t | t in e.wait.woken :: WantOf(e'.want, t) == WantOf(e.want, t)
  {
    hide Walk, Satisfied;
    match a
    case SendAct(bits) => SendKeeps(e, bits);
    case RecvAct(who, w, wait) => RecvKeeps(e, who, w, wait, flag, prio);
    case Returns(t) => EnterSound(e.wait, t);
    case Expires(t) => ExpireSound(e.wait, t, 0 - 1);
    case ResetAct => DismissSound(e.wait, 0);
  }

  ghost predicate Run(es: seq<Ev>, acts: seq<Action>, flag: Flag, prios: seq<Tid -> nat>) {
    && |es| == |acts| + 1 && |prios| == |acts|
    && forall k | 0 <= k < |acts| ::
         Enabled(es[k], acts[k]) && es[k + 1] == Apply(es[k], acts[k], flag, prios[k]).0
  }

  /** In every state of every run: no thread waits for events that are there. */
  lemma {:induction false} NobodyStranded(es: seq<Ev>, acts: seq<Action>, flag: Flag, prios: seq<Tid -> nat>)
    requires Run(es, acts, flag, prios) && Kept(es[0])
    ensures Sound(es[|acts|].wait)
    ensures forall t | t in es[|acts|].wait.queue :: !Satisfied(WantOf(es[|acts|].want, t), es[|acts|].bits)
    ensures Kept(es[|acts|])
  {
    hide Apply, Enabled, Sound, Satisfied;
    if acts != [] {
      var n := |acts| - 1;
      NobodyStranded(es[..n + 1], acts[..n], flag, prios[..n]);
      ApplyKeeps(es[n], acts[n], flag, prios[n]);
    }
  }
}
