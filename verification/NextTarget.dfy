// The atomic minimum of ThreadSafeQueue::push in cpp/stuff.hpp: any number of threads run a relaxed load and a
// compare_exchange_weak loop on next_target. A relaxed read may return any value the variable ever had; only a
// successful exchange must see the newest one; an exchange may fail for no reason.
module NextTarget {

  datatype Pc = Start(t: int) | Loop(t: int, cur: int) | Done(t: int)

  /** history holds the values of next_target in modification order, the newest last. */
  datatype State = State(history: seq<int>, threads: seq<Pc>)

  datatype Event = Load(p: nat, v: nat) | Exit(p: nat) | Succeed(p: nat) | Fail(p: nat, v: nat)

  predicate Reading(s: State, p: nat, v: nat) {
    p < |s.threads| && v < |s.history|
  }

  function Current(s: State): int
    requires s.history != []
  {
    s.history[|s.history| - 1]
  }

  /** A step that is not enabled leaves the state as it is. */
  function Step(s: State, e: Event): State {
    match e
    case Load(p, v) =>
      if Reading(s, p, v) && s.threads[p].Start? then
        s.(threads := s.threads[p := Loop(s.threads[p].t, s.history[v])])
      else s
    case Exit(p) =>
      if p < |s.threads| && s.threads[p].Loop? && !(s.threads[p].t < s.threads[p].cur) then
        s.(threads := s.threads[p := Done(s.threads[p].t)])
      else s
    case Succeed(p) =>
      if p < |s.threads| && s.history != [] && s.threads[p].Loop? && s.threads[p].t < s.threads[p].cur
         && s.threads[p].cur == Current(s) then
        State(s.history + [s.threads[p].t], s.threads[p := Done(s.threads[p].t)])
      else s
    case Fail(p, v) =>
      if Reading(s, p, v) && s.threads[p].Loop? && s.threads[p].t < s.threads[p].cur then
        s.(threads := s.threads[p := Loop(s.threads[p].t, s.history[v])])
      else s
  }

  /** times are the timestamps pushed, one thread each; top is the initial maximum. */
  function Run(top: int, times: seq<int>, es: seq<Event>): State {
    if es == [] then State([top], seq(|times|, i requires 0 <= i < |times| => Start(times[i])))
    else Step(Run(top, times, es[..|es| - 1]), es[|es| - 1])
  }

  ghost predicate FromPush(s: State, h: int) {
    exists p: nat :: p < |s.threads| && s.threads[p] == Done(h)
  }

  ghost predicate Inv(top: int, times: seq<int>, s: State) {
    && s.history != [] && |s.threads| == |times|
    && (forall p: nat | p < |times| :: s.threads[p].t == times[p])
    && (forall i, j | 0 <= i < j < |s.history| :: s.history[i] > s.history[j])
    && (forall h | h in s.history :: h == top || FromPush(s, h))
    && (forall p: nat | p < |times| && s.threads[p].Loop? :: s.threads[p].cur >= Current(s))
    && (forall p: nat | p < |times| && s.threads[p].Done? :: Current(s) <= times[p])
  }

  lemma FromPushStays(s: State, t: State, h: int)
    requires FromPush(s, h) && |s.threads| == |t.threads|
    requires forall p | 0 <= p < |s.threads| && s.threads[p].Done? :: t.threads[p] == s.threads[p]
    ensures FromPush(t, h)
  {
    var p: nat :| p < |s.threads| && s.threads[p] == Done(h);
    assert t.threads[p] == Done(h);
  }

  /** An exchange that succeeds: the new value is below all before it, and its thread is done. */
  lemma SucceedKeeps(top: int, times: seq<int>, s: State, p: nat)
    requires Inv(top, times, s) && Step(s, Succeed(p)) != s
    ensures Inv(top, times, Step(s, Succeed(p)))
  {
    var t := Step(s, Succeed(p));
    forall h | h in t.history
      ensures h == top || FromPush(t, h)
    {
      if h in s.history && h != top {
        FromPushStays(s, t, h);
      } else if h != top {
        assert t.threads[p] == Done(h);
      }
    }
  }

  lemma StepKeeps(top: int, times: seq<int>, s: State, e: Event)
    requires Inv(top, times, s)
    ensures Inv(top, times, Step(s, e))
    ensures s.history <= Step(s, e).history
  {
    var t := Step(s, e);
    if e.Succeed? && t != s {
      SucceedKeeps(top, times, s, e.p);
    } else {
      forall h | h in t.history && h != top
        ensures FromPush(t, h)
      {
        FromPushStays(s, t, h);
      }
    }
  }

  lemma {:induction false} RunKeeps(top: int, times: seq<int>, es: seq<Event>)
    ensures Inv(top, times, Run(top, times, es))
  {
    if es != [] {
      RunKeeps(top, times, es[..|es| - 1]);
      StepKeeps(top, times, Run(top, times, es[..|es| - 1]), es[|es| - 1]);
    }
  }

  /**
   * In every run with any interleaving, stale reads and spurious failures: next_target only falls, is the initial
   * maximum or a pushed timestamp, and no finished push is below it.
   */
  lemma MinimumHeld(top: int, times: seq<int>, es: seq<Event>, e: Event)
    ensures var s, t := Run(top, times, es), Run(top, times, es + [e]);
            && s.history != [] && t.history != [] && Current(t) <= Current(s) <= top
            && (Current(s) == top || Current(s) in times)
            && (forall p: nat | p < |times| && |s.threads| == |times| && s.threads[p].Done? :: Current(s) <= times[p])
  {
    assert (es + [e])[..|es|] == es;
    var s := Run(top, times, es);
    RunKeeps(top, times, es);
    StepKeeps(top, times, s, e);
    RunTop(top, times, es);
    assert Current(s) in s.history;
    assert Current(s) == top || FromPush(s, Current(s));
    assert Current(Step(s, e)) <= Current(s);
  }

  lemma {:induction false} RunTop(top: int, times: seq<int>, es: seq<Event>)
    ensures Run(top, times, es).history != [] && Run(top, times, es).history[0] == top
  {
    if es != [] {
      RunTop(top, times, es[..|es| - 1]);
    }
  }

  /**
   * Whenever no push is in flight, next_target is the least of the timestamps pushed so far, or the initial
   * maximum if there are none.
   */
  lemma QuietMinimum(top: int, times: seq<int>, es: seq<Event>)
    requires forall p | p in Run(top, times, es).threads :: !p.Loop?
    requires forall t | t in times :: t <= top
    ensures var s := Run(top, times, es);
            && s.history != []
            && (forall p | p in s.threads && p.Done? :: Current(s) <= p.t)
            && (if exists p :: p in s.threads && p.Done? then Done(Current(s)) in s.threads else Current(s) == top)
  {
    RunKeeps(top, times, es);
    RunTop(top, times, es);
    var s := Run(top, times, es);
    assert Current(s) in s.history;
    forall q | q in s.threads && q.Done?
      ensures Current(s) <= q.t && q.t in times
    {
      var p: nat :| p < |s.threads| && s.threads[p] == q;
      assert s.threads[p].t == times[p];
    }
    if q :| q in s.threads && q.Done? {
      if Current(s) == top {
        assert q == Done(Current(s));
      }
    }
  }

  // ------------------------------------------------------------------ a push comes to its end

  /** What the loop of push does when it sees the newest value: it ends, and leaves the lesser of that and its own. */
  lemma NewestEnds(s: State, p: nat)
    requires p < |s.threads| && s.history != [] && s.threads[p].Loop? && s.threads[p].cur == Current(s)
    ensures var t := s.threads[p].t;
            var next := if t < Current(s) then Step(s, Succeed(p)) else Step(s, Exit(p));
            && next.threads == s.threads[p := Done(t)]
            && next.history == if t < Current(s) then s.history + [t] else s.history
  {
  }

  /** A load, or an exchange that fails, makes the thread see the value it read. */
  lemma ReadsSee(s: State, p: nat, v: nat)
    requires Reading(s, p, v) && !s.threads[p].Done?
    requires s.threads[p].Loop? ==> s.threads[p].t < s.threads[p].cur
    ensures var e := if s.threads[p].Start? then Load(p, v) else Fail(p, v);
            Step(s, e) == s.(threads := s.threads[p := Loop(s.threads[p].t, s.history[v])])
  {
  }

  /** The two steps that see the newest value and act on it. */
  function Ending(s: State, p: nat): seq<Event>
    requires p < |s.threads| && s.history != []
  {
    var newest := |s.history| - 1;
    [if s.threads[p].Start? then Load(p, newest) else Fail(p, newest),
     if s.threads[p].t < Current(s) then Succeed(p) else Exit(p)]
  }

  lemma EndingEnds(s: State, p: nat)
    requires p < |s.threads| && s.history != [] && !s.threads[p].Done?
    requires s.threads[p].Loop? ==> s.threads[p].t < s.threads[p].cur
    ensures var t, es := s.threads[p].t, Ending(s, p);
            Step(Step(s, es[0]), es[1])
            == State(if t < Current(s) then s.history + [t] else s.history, s.threads[p := Done(t)])
  {
    ReadsSee(s, p, |s.history| - 1);
    NewestEnds(Step(s, Ending(s, p)[0]), p);
  }

  /** The push of thread p is over, and next_target is the lesser of its time and of what it was. */
  predicate PushedMin(s: State, t: State, p: nat, own: int) {
    && p < |t.threads| == |s.threads| && t.threads[p] == Done(own) && s.history != [] && t.history != []
    && (!s.threads[p].Done? ==> Current(t) == if own < Current(s) then own else Current(s))
  }

  lemma OneStepEnds(s: State, p: nat)
    requires p < |s.threads| && s.history != [] && s.threads[p].Loop?
    requires Current(s) <= s.threads[p].cur <= s.threads[p].t
    ensures PushedMin(s, Step(s, Exit(p)), p, s.threads[p].t)
  {
  }

  lemma TwoStepsEnd(s: State, p: nat)
    requires p < |s.threads| && s.history != [] && !s.threads[p].Done?
    requires s.threads[p].Loop? ==> s.threads[p].t < s.threads[p].cur
    ensures PushedMin(s, Step(Step(s, Ending(s, p)[0]), Ending(s, p)[1]), p, s.threads[p].t)
  {
    EndingEnds(s, p);
  }

  lemma Seen(top: int, times: seq<int>, es: seq<Event>, p: nat)
    requires p < |times|
    ensures var s := Run(top, times, es);
            && |s.threads| == |times| && s.history != [] && s.threads[p].t == times[p]
            && (s.threads[p].Loop? ==> Current(s) <= s.threads[p].cur)
  {
    RunKeeps(top, times, es);
  }

  lemma RunTwo(top: int, times: seq<int>, es: seq<Event>, two: seq<Event>)
    requires |two| == 2
    ensures Run(top, times, es + two) == Step(Step(Run(top, times, es), two[0]), two[1])
  {
    assert es + two == es + [two[0]] + [two[1]];
    RunOne(top, times, es, two[0]);
    RunOne(top, times, es + [two[0]], two[1]);
  }

  /** So every push can end in at most two steps of its own, whatever the others did. */
  lemma PushEnds(top: int, times: seq<int>, es: seq<Event>, p: nat) returns (more: seq<Event>)
    requires p < |times|
    ensures |more| <= 2 && forall e | e in more :: e.p == p
    ensures PushedMin(Run(top, times, es), Run(top, times, es + more), p, times[p])
  {
    var s := Run(top, times, es);
    Seen(top, times, es, p);
    if s.threads[p].Done? {
      more := [];
      assert es + more == es;
    } else if s.threads[p].Loop? && s.threads[p].cur <= s.threads[p].t {
      more := [Exit(p)];
      RunOne(top, times, es, Exit(p));
      OneStepEnds(s, p);
    } else {
      more := Ending(s, p);
      RunTwo(top, times, es, more);
      TwoStepsEnd(s, p);
    }
  }

  lemma RunOne(top: int, times: seq<int>, es: seq<Event>, e: Event)
    ensures Run(top, times, es + [e]) == Step(Run(top, times, es), e)
  {
    assert (es + [e])[..|es|] == es;
  }
}
