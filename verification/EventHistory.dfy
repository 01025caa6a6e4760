/**
  Which events an event set (ipc.c) holds: those sent, each until a thread that clears it gets it, or a reset.
*/
module EventHistory {
  import opened Basics
  import opened WaitQueue
  import opened EventSpec

  // ---- Single events -------------------------------------------------------------------------

  predicate Single(x: Bits) {
    x != 0 && x & (x - 1) == 0
  }

  predicate Has(bits: Bits, x: Bits) {
    bits & x != 0
  }

  lemma HasEither(a: Bits, b: Bits, x: Bits)
    ensures Has(Either(a, b), x) <==> Has(a, x) || Has(b, x)
  {
    assert (a | b) & x == (a & x) | (b & x);
    NotNone(a & x, b & x);
  }

  lemma NotNone(a: Bits, b: Bits)
    ensures a | b != 0 <==> a != 0 || b != 0
  {
  }

  lemma HasBoth(a: Bits, b: Bits, x: Bits)
    requires Single(x)
    ensures Has(Both(a, b), x) <==> Has(a, x) && Has(b, x)
  {
    SingleOf(a, x);
    SingleOf(b, x);
    assert (a & b) & x == (a & x) & (b & x);
  }

  lemma HasMinus(a: Bits, b: Bits, x: Bits)
    requires Single(x)
    ensures Has(Minus(a, b), x) <==> Has(a, x) && !Has(b, x)
  {
    SingleOf(a, x);
    SingleOf(b, x);
    assert (a & !b) & x == (a & x) & !(b & x);
    assert x & !x == 0 && x & !(0 as Bits) == x;
  }

  lemma SingleOf(a: Bits, x: Bits)
    requires Single(x)
    ensures a & x == 0 || a & x == x
  {
  }

  /** Some event is in one set and not in the other. */
  lemma Difference(a: Bits, b: Bits) returns (x: Bits)
    requires !Within(a, b)
    ensures Single(x) && Has(a, x) && !Has(b, x)
  {
    hide Within, Single, Has, Minus;
    NotWithin(a, b);
    x := LowestOf(Minus(a, b));
    OneSided(a, b, x);
  }

  lemma NotWithin(a: Bits, b: Bits)
    ensures Within(a, b) <==> Minus(a, b) == 0
  {
  }

  lemma OneSided(a: Bits, b: Bits, x: Bits)
    requires Single(x) && Both(Minus(a, b), x) == x
    ensures Has(a, x) && !Has(b, x)
  {
    hide Minus, Has, Both;
    OfLowest(Minus(a, b), x);
    HasMinus(a, b, x);
  }

  lemma LowestOf(d: Bits) returns (x: Bits)
    requires d != 0
    ensures Single(x) && Both(d, x) == x
  {
    x := d & (0 - d);
  }

  /** An AND request is satisfied when all events asked for are there, an OR request when one is. */
  lemma SatisfiedMeaning(w: Want, bits: Bits)
    ensures w.and ==> (Satisfied(w, bits) <==> forall x | Single(x) && Has(w.bits, x) :: Has(bits, x))
    ensures !w.and && w.or ==> (Satisfied(w, bits) <==> exists x :: Single(x) && Has(w.bits, x) && Has(bits, x))
    ensures !w.and && !w.or ==> !Satisfied(w, bits)
  {
    hide Single, Has, Both;
    if w.and {
      AndMeaning(w, bits);
    } else if w.or {
      OrMeaning(w, bits);
    }
  }

  lemma AndMeaning(w: Want, bits: Bits)
    requires w.and
    ensures Satisfied(w, bits) <==> forall x | Single(x) && Has(w.bits, x) :: Has(bits, x)
  {
    hide Single, Has;
    if Satisfied(w, bits) {
      forall x | Single(x) && Has(w.bits, x) ensures Has(bits, x) { HasBoth(bits, w.bits, x); }
    } else {
      BothWithin(w.bits, bits);
      var x := Difference(w.bits, bits);
    }
  }

  lemma BothWithin(a: Bits, b: Bits)
    ensures Both(b, a) == a <==> Within(a, b)
  {
  }

  lemma OrMeaning(w: Want, bits: Bits)
    requires !w.and && w.or
    ensures Satisfied(w, bits) <==> exists x :: Single(x) && Has(w.bits, x) && Has(bits, x)
  {
    hide Single, Has, Both;
    if Satisfied(w, bits) {
      var x := LowestOf(Both(bits, w.bits));
      OfLowest(Both(bits, w.bits), x);
      HasBoth(bits, w.bits, x);
    } else {
      forall x | Single(x) && Has(w.bits, x) ensures !Has(bits, x) {
        HasBoth(bits, w.bits, x);
        NoneHas(x);
      }
    }
  }

  lemma OfLowest(d: Bits, x: Bits)
    requires Single(x) && Both(d, x) == x
    ensures Has(d, x)
  {
  }

  lemma NoneHas(x: Bits)
    ensures !Has(0, x)
  {
  }

  // ---- One send --------------------------------------------------------------------------------

  /** The walk gives event `x` to a thread that clears it. */
  ghost predicate Clears(r: Walked, x: Bits) {
    exists t :: t in r.woken && WantOf(r.want, t).clear && Has(WantOf(r.want, t).bits, x)
  }

  /** An event is left after the walk exactly when it was there before and was given to nobody who clears it. */
  lemma {:induction false} WalkLeaves(q: seq<Tid>, bits: Bits, want: map<Tid, Want>, x: Bits)
    requires Distinct(q) && Single(x)
    ensures var r := Walk(q, bits, want); Has(r.bits, x) <==> Has(bits, x) && !Clears(r, x)
  {
    hide Satisfied, Within, LeftBy, Walk, Both, Has, Single;
    if q == [] {
      WalkEmpty(bits, want);
    } else {
      var t, w := q[0], WantOf(want, q[0]);
      WalkStep(q, bits, want);
      if w.and || w.or {
        if Satisfied(w, bits) {
          var next := want[t := w.(bits := Both(bits, w.bits))];
          var rest, r := Walk(q[1..], LeftBy(w, bits), next), Walk(q, bits, want);
          WalkLeaves(q[1..], LeftBy(w, bits), next, x);
          WalkFrame(q[1..], LeftBy(w, bits), next);
          LeftHas(w, bits, x);
          assert WantOf(r.want, t) == w.(bits := Both(bits, w.bits));
          if w.clear && Has(Both(bits, w.bits), x) {
            assert t in r.woken;
            assert Clears(r, x);
          }
          assert Clears(rest, x) ==> Clears(r, x);
          if Clears(r, x) {
            var u :| u in r.woken && WantOf(r.want, u).clear && Has(WantOf(r.want, u).bits, x);
            assert u != t ==> u in rest.woken;
          }
        } else {
          WalkLeaves(q[1..], bits, want, x);
        }
      }
    }
  }

  lemma LeftHas(w: Want, bits: Bits, x: Bits)
    requires Single(x)
    ensures Has(LeftBy(w, bits), x) <==> Has(bits, x) && !(w.clear && Has(Both(bits, w.bits), x))
  {
    hide Has, Single, Both, Minus;
    HasMinus(bits, Both(bits, w.bits), x);
  }

  /** Each thread on the list, in its turn, sees what those before it have left. */
  lemma {:induction false} WalkInOrder(q: seq<Tid>, bits: Bits, want: map<Tid, Want>, k: nat)
    requires Distinct(q) && k < |q| && Walk(q, bits, want).valid
    ensures var r := Walk(q, bits, want); var w, seen := WantOf(want, q[k]), Walk(q[..k], bits, want).bits;
            && (q[k] in r.woken <==> Satisfied(w, seen))
            && (q[k] in r.woken ==> WantOf(r.want, q[k]) == w.(bits := Both(seen, w.bits)))
  {
    hide Satisfied, Within, LeftBy, Walk, Both;
    var t, w := q[0], WantOf(want, q[0]);
    WalkStep(q, bits, want);
    var hit := Satisfied(w, bits);
    var left := if hit then LeftBy(w, bits) else bits;
    var next := if hit then want[t := w.(bits := Both(bits, w.bits))] else want;
    WalkFrame(q[1..], left, next);
    if k == 0 {
      assert q[..0] == [];
      WalkEmpty(bits, want);
    } else {
      var front := q[..k];
      assert front[0] == t && front[1..] == q[1..][..k - 1];
      WalkStep(front, bits, want);
      WalkInOrder(q[1..], left, next, k - 1);
    }
  }

  /** A thread that clears event `x` is resumed with it by the step. */
  ghost predicate Delivers(e: Ev, e': Ev, x: Bits) {
    exists t :: t in e'.wait.woken && t !in e.wait.woken && WantOf(e'.want, t).clear && Has(WantOf(e'.want, t).bits, x)
  }

  /** After a send an event is there exactly when it was there before or is among those sent, and no thread the send
      resumes has cleared it. */
  lemma SendLeaves(e: Ev, bits: Bits, x: Bits)
    requires Kept(e) && Single(x) && bits != 0
    ensures var e' := Send(e, bits).0; Has(e'.bits, x) <==> (Has(e.bits, x) || Has(bits, x)) && !Delivers(e, e', x)
  {
    hide Walk, Has, Single, Either, Satisfied;
    var r, e' := Walk(e.wait.queue, Either(e.bits, bits), e.want), Send(e, bits).0;
    HasEither(e.bits, bits, x);
    WalkFrame(e.wait.queue, Either(e.bits, bits), e.want);
    WalkLeaves(e.wait.queue, Either(e.bits, bits), e.want, x);
    if Clears(r, x) {
      var t :| t in r.woken && WantOf(r.want, t).clear && Has(WantOf(r.want, t).bits, x);
      assert t in e.wait.queue && t in e'.wait.woken && t !in e.wait.woken;
    }
    if Delivers(e, e', x) {
      var t :| t in e'.wait.woken && t !in e.wait.woken && WantOf(e'.want, t).clear && Has(WantOf(e'.want, t).bits, x);
      assert t in r.woken;
    }
  }

  /** A send of nothing is an error; any other is done, and every thread it does not resume waits on, in order. */
  lemma SendExactly(e: Ev, bits: Bits)
    requires Kept(e)
    ensures var (e', o) := Send(e, bits);
            && (o == Error <==> bits == 0) && (o == Done <==> bits != 0) && (o == Error ==> e' == e)
            && (forall t | t in e.wait.queue :: t in e'.wait.queue || t in e'.wait.woken)
            && (forall t | t in e'.wait.queue :: t in e.wait.queue && WantOf(e'.want, t) == WantOf(e.want, t))
  {
    hide Walk, Either, Satisfied;
    SendKeeps(e, bits);
    WalkFrame(e.wait.queue, Either(e.bits, bits), e.want);
    WalkCovers(e.wait.queue, Either(e.bits, bits), e.want);
  }

  /** A receive is satisfied exactly when its condition holds of the set; it gets what it asked for and is there. */
  lemma RecvExactly(e: Ev, who: Tid, w: Want, wait: Wait, flag: Flag, prio: Tid -> nat, x: Bits)
    requires Sound(e.wait) && who !in e.wait.queue && Single(x)
    ensures var (e', o) := Recv(e, who, w, wait, flag, prio);
            && (o == Error <==> w.bits == 0) && (o.Received? <==> w.bits != 0 && Satisfied(w, e.bits))
            && (o == TimedOut <==> w.bits != 0 && !Satisfied(w, e.bits) && wait == NoWait)
            && (o == Blocked <==> w.bits != 0 && !Satisfied(w, e.bits) && wait != NoWait)
            && (o.Received? ==> (Has(o.bits, x) <==> Has(e.bits, x) && Has(w.bits, x)) && e'.wait == e.wait)
            && (Has(e'.bits, x) <==> Has(e.bits, x) && !(o.Received? && w.clear && Has(o.bits, x)))
            && (o == Error || o == TimedOut ==> e' == e)
            && (o == Blocked ==> WantOf(e'.want, who) == w && NowWaits(e.wait, e'.wait, who, wait))
  {
    hide Has, Single, Both, Minus, Satisfied, Block, NowWaits;
    HasBoth(e.bits, w.bits, x);
    HasMinus(e.bits, w.bits, x);
    if w.bits != 0 && !Satisfied(w, e.bits) && wait != NoWait { Waits(e.wait, who, flag, wait, prio); }
  }

  /** A reset leaves no event and nobody waiting. */
  lemma ResetExactly(e: Ev, x: Bits)
    requires Sound(e.wait)
    ensures !Has(Reset(e).bits, x) && Reset(e).wait.queue == [] && Reset(e).wait.woken == e.wait.woken
  {
    DismissMeaning(e.wait);
  }

  // ---- All runs --------------------------------------------------------------------------------

  predicate Sends(a: Action, x: Bits) {
    a.SendAct? && Has(a.bits, x)
  }

  /** The step takes the event out of the set: a thread that clears it gets it, at once or by being resumed, or a reset. */
  ghost predicate Removes(e: Ev, a: Action, o: Outcome, e': Ev, x: Bits) {
    match a
    case SendAct(_) => Delivers(e, e', x)
    case RecvAct(_, w, _) => o.Received? && w.clear && Has(o.bits, x)
    case ResetAct => true
    case _ => false
  }

  lemma StepLeaves(e: Ev, a: Action, flag: Flag, prio: Tid -> nat, x: Bits)
    requires Kept(e) && Enabled(e, a) && Single(x)
    ensures var (e', o) := Apply(e, a, flag, prio);
            Has(e'.bits, x) <==> (Has(e.bits, x) || Sends(a, x)) && !Removes(e, a, o, e', x)
  {
    hide Has, Single, Satisfied, Walk, Either, Both, Minus, Block;
    match a
    case SendAct(bits) =>
      if bits == 0 {
        NoneHas(x);
        assert !Delivers(e, e, x);
      } else {
        SendLeaves(e, bits, x);
      }
    case RecvAct(who, w, wait) => RecvExactly(e, who, w, wait, flag, prio, x);
    case ResetAct => ResetExactly(e, x);
    case _ =>
  }

  ghost predicate RemovedAt(es: seq<Ev>, acts: seq<Action>, flag: Flag, prios: seq<Tid -> nat>, x: Bits, k: nat)
    requires Run(es, acts, flag, prios) && k < |acts|
  {
    Removes(es[k], acts[k], Apply(es[k], acts[k], flag, prios[k]).1, es[k + 1], x)
  }

  /** The event was there at first, or was sent by step `j`, and no step since, that one included, has removed it. */
  ghost predicate SentAndLeft(es: seq<Ev>, acts: seq<Action>, flag: Flag, prios: seq<Tid -> nat>, x: Bits, j: int)
    requires Run(es, acts, flag, prios)
  {
    && -1 <= j < |acts| && (if j == -1 then Has(es[0].bits, x) else Sends(acts[j], x))
    && forall k | 0 <= k < |acts| && k >= j :: !RemovedAt(es, acts, flag, prios, x, k)
  }

  /** In every state of every run, the set holds exactly the events that were there at first or sent since, and that no
      thread has got and cleared and no reset has removed after that. */
  lemma {:induction false} HoldsWhatWasSent(es: seq<Ev>, acts: seq<Action>, flag: Flag, prios: seq<Tid -> nat>, x: Bits)
    requires Run(es, acts, flag, prios) && Kept(es[0]) && Single(x)
    ensures Has(es[|acts|].bits, x) <==> exists j :: SentAndLeft(es, acts, flag, prios, x, j)
  {
    hide Has, Single, Apply, Enabled, Kept, Sends, Removes;
    if acts == [] {
      assert SentAndLeft(es, acts, flag, prios, x, -1) <==> Has(es[0].bits, x);
    } else {
      var n := |acts| - 1;
      var fs, bs, ps := es[..n + 1], acts[..n], prios[..n];
      HoldsWhatWasSent(fs, bs, flag, ps, x);
      NobodyStranded(fs, bs, flag, ps);
      StepLeaves(es[n], acts[n], flag, prios[n], x);
      forall k: nat | k < n ensures RemovedAt(fs, bs, flag, ps, x, k) <==> RemovedAt(es, acts, flag, prios, x, k) {}
      if Has(es[n + 1].bits, x) {
        if Sends(acts[n], x) {
          assert SentAndLeft(es, acts, flag, prios, x, n);
        } else {
          var j :| SentAndLeft(fs, bs, flag, ps, x, j);
          assert SentAndLeft(es, acts, flag, prios, x, j);
        }
      }
      if j :| SentAndLeft(es, acts, flag, prios, x, j) {
        assert !RemovedAt(es, acts, flag, prios, x, n);
        if j < n { assert SentAndLeft(fs, bs, flag, ps, x, j); }
      }
    }
  }
}
