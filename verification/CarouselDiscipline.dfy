// When pushes beside a running drain lose and repeat nothing: exactly when no push holds a slot of a bucket
// whose drain begins, and none takes a slot of a bucket while it is being drained.
module CarouselDiscipline {
  import opened Bags
  import opened Basics
  import opened CarouselSteps

  // ------------------------------------------------------------------ pushes that finish before their drain

  /** The drainer is between taking bucket i's mutex and clearing it. */
  predicate InWindow<P>(s: State<P>, i: nat) {
    (s.drainer.Sending? || s.drainer.Leaving?) && s.drainer.ind == i
  }

  /** No push holds a slot of the bucket being locked, and none takes a slot of a bucket being drained. */
  ghost predicate Disciplined<P>(c: Config, s: State<P>, e: Event<P>)
    requires Shaped(c, s)
  {
    match e
    case Lock =>
      s.drainer.Top? ==> forall p | 0 <= p < |s.pushers| :: !(s.pushers[p].Writing? && s.pushers[p].ind == s.k % c.m)
    case Add(p) =>
      p < |s.pushers| && s.pushers[p].Adding? && InWindow(s, s.pushers[p].ind) ==>
        s.buckets[s.pushers[p].ind].count >= c.n
    case _ => true
  }

  ghost predicate DisciplinedRun<P>(c: Config, threads: nat, blank: P, es: seq<Event<P>>)
    requires Good(c)
  {
    es == [] || (DisciplinedRun(c, threads, blank, es[..|es| - 1])
                 && Disciplined(c, Run(c, threads, blank, es[..|es| - 1]), es[|es| - 1]))
  }

  ghost predicate OwnsSlot<P>(s: State<P>, p: nat, i: nat, x: nat) {
    p < |s.pushers| && s.pushers[p].Writing? && s.pushers[p].ind == i && s.pushers[p].slot == x
  }

  /** Reserved slots and writing pushers match one to one. */
  ghost predicate Matched<P>(c: Config, s: State<P>)
    requires Shaped(c, s)
  {
    && (forall i, x | 0 <= i < c.m && 0 <= x < c.n ::
          s.buckets[i].tags[x].Reserved? ==> OwnsSlot(s, s.buckets[i].tags[x].owner, i, x))
    && (forall p: nat | p < |s.pushers| && s.pushers[p].Writing? ::
          s.buckets[s.pushers[p].ind].tags[s.pushers[p].slot] == Reserved(p))
  }

  /** What is gone, and what is left, in the bucket being drained; nothing is gone elsewhere. */
  ghost predicate Sweep<P>(c: Config, s: State<P>)
    requires Shaped(c, s)
  {
    && (forall i, x | 0 <= i < c.m && 0 <= x < c.n :: s.buckets[i].tags[x] == Gone ==> InWindow(s, i))
    && (s.drainer.Sending? ==> s.drainer.i <= Min(s.buckets[s.drainer.ind].count, c.n))
    && (s.drainer.Sending? ==>
          forall x | 0 <= x < c.n ::
            var tag := s.buckets[s.drainer.ind].tags[x];
            tag == if x >= s.buckets[s.drainer.ind].count then Free else if x < s.drainer.i then Gone else Filled)
    && (s.drainer.Leaving? ==>
          forall x | 0 <= x < c.n ::
            s.buckets[s.drainer.ind].tags[x] == if x >= s.buckets[s.drainer.ind].count then Free else Gone)
  }

  /** What a disciplined run keeps. */
  ghost predicate Clean<P>(c: Config, s: State<P>) {
    Sound(c, s) && Matched(c, s) && Sweep(c, s) && Balanced(c, s)
  }

  lemma CleanSafe<P>(c: Config, s: State<P>, e: Event<P>)
    requires Sound(c, s) && Matched(c, s) && Sweep(c, s) && Enabled(c, s, e)
    ensures Safe(c, s, e)
  {
  }

  lemma AddMatched<P>(c: Config, s: State<P>, p: nat)
    requires Sound(c, s) && Matched(c, s) && Enabled(c, s, Add(p)) && Shaped(c, AddStep(c, s, p))
    ensures Matched(c, AddStep(c, s, p))
  {
  }

  lemma WriteMatched<P>(c: Config, s: State<P>, p: nat)
    requires Shaped(c, s) && Matched(c, s) && Enabled(c, s, Write(p)) && Shaped(c, WriteStep(s, p))
    ensures Matched(c, WriteStep(s, p))
  {
  }

  lemma DrainMatched<P>(c: Config, s: State<P>, e: Event<P>)
    requires Sound(c, s) && Matched(c, s) && Sweep(c, s) && Enabled(c, s, e) && Shaped(c, Step(c, s, e))
    requires e.SendOne? || e.Clear?
    ensures Matched(c, Step(c, s, e))
  {
  }

  lemma StepMatched<P>(c: Config, s: State<P>, e: Event<P>)
    requires Sound(c, s) && Matched(c, s) && Sweep(c, s) && Enabled(c, s, e)
    requires Shaped(c, Step(c, s, e))
    ensures Matched(c, Step(c, s, e))
  {
    match e
    case Add(p) => AddMatched(c, s, p);
    case Write(p) => WriteMatched(c, s, p);
    case SendOne => DrainMatched(c, s, e);
    case Clear => DrainMatched(c, s, e);
    case _ =>
  }

  lemma PushSweep<P>(c: Config, s: State<P>, e: Event<P>)
    requires Sound(c, s) && Sweep(c, s) && Enabled(c, s, e) && Disciplined(c, s, e) && Shaped(c, Step(c, s, e))
    requires e.Begin? || e.Choose? || e.Add? || e.Write?
    ensures Sweep(c, Step(c, s, e))
  {
  }

  lemma DrainSweep<P>(c: Config, s: State<P>, e: Event<P>)
    requires Sound(c, s) && Matched(c, s) && Sweep(c, s) && Enabled(c, s, e) && Disciplined(c, s, e)
    requires Shaped(c, Step(c, s, e))
    requires !(e.Begin? || e.Choose? || e.Add? || e.Write?)
    ensures Sweep(c, Step(c, s, e))
  {
  }

  lemma StepSweep<P>(c: Config, s: State<P>, e: Event<P>)
    requires Sound(c, s) && Matched(c, s) && Sweep(c, s) && Enabled(c, s, e) && Disciplined(c, s, e)
    requires Shaped(c, Step(c, s, e))
    ensures Sweep(c, Step(c, s, e))
  {
    if e.Begin? || e.Choose? || e.Add? || e.Write? {
      PushSweep(c, s, e);
    } else {
      DrainSweep(c, s, e);
    }
  }

  lemma InitialBalanced<P>(c: Config, threads: nat, blank: P)
    requires Good(c)
    ensures Balanced(c, Initial(c, threads, blank))
  {
    var s := Initial(c, threads, blank);
    forall i: nat | i < c.m
      ensures Stores(c, s)[i] == multiset{}
    {
      NothingStored(s.buckets[i]);
    }
    TotalNone(Stores(c, s));
  }

  lemma NextConserves<P>(c: Config, s: State<P>, e: Event<P>)
    requires Clean(c, s) && Disciplined(c, s, e)
    ensures Clean(c, Next(c, s, e))
  {
    NextSound(c, s, e);
    if Enabled(c, s, e) {
      StepShaped(c, s, e);
      CleanSafe(c, s, e);
      SafeExactly(c, s, e);
      StepMatched(c, s, e);
      StepSweep(c, s, e);
    }
  }

  /**
   * When every push that holds a slot finishes before its bucket's drain begins, every interleaving keeps the
   * balance: what push accepted is what was sent and what still waits, nothing lost and nothing repeated.
   */
  lemma {:induction false} DisciplinedConserves<P>(c: Config, threads: nat, blank: P, es: seq<Event<P>>)
    requires Good(c) && DisciplinedRun(c, threads, blank, es)
    ensures Clean(c, Run(c, threads, blank, es))
  {
    if es == [] {
      InitialBalanced(c, threads, blank);
    } else {
      DisciplinedConserves(c, threads, blank, es[..|es| - 1]);
      NextConserves(c, Run(c, threads, blank, es[..|es| - 1]), es[|es| - 1]);
    }
  }

  /** After a disciplined run every step the code can take is a safe one. */
  lemma DisciplinedSafe<P>(c: Config, threads: nat, blank: P, es: seq<Event<P>>, e: Event<P>)
    requires Good(c) && DisciplinedRun(c, threads, blank, es) && Enabled(c, Run(c, threads, blank, es), e)
    ensures Safe(c, Run(c, threads, blank, es), e)
  {
    DisciplinedConserves(c, threads, blank, es);
    CleanSafe(c, Run(c, threads, blank, es), e);
  }

  // ------------------------------------------------------------------ the discipline is exact

  /** No drain begins and no push takes a slot: the turn under way and the writes under way may finish. */
  ghost predicate Finishing<P>(fs: seq<Event<P>>) {
    forall f | f in fs :: !f.Lock? && !f.Add?
  }

  lemma {:induction false} FinishingDisciplined<P>(c: Config, threads: nat, blank: P, es: seq<Event<P>>,
                                                   fs: seq<Event<P>>)
    requires Good(c) && DisciplinedRun(c, threads, blank, es) && Finishing(fs)
    ensures DisciplinedRun(c, threads, blank, es + fs)
  {
    if fs == [] {
      assert es + fs == es;
    } else {
      var before := fs[..|fs| - 1];
      assert (es + fs)[..|es + fs| - 1] == es + before;
      FinishingDisciplined(c, threads, blank, es, before);
      assert fs[|fs| - 1] in fs;
    }
  }

  lemma RunOne<P>(c: Config, threads: nat, blank: P, es: seq<Event<P>>, e: Event<P>)
    requires Good(c)
    ensures Run(c, threads, blank, es + [e]) == Next(c, Run(c, threads, blank, es), e)
  {
    assert (es + [e])[..|es|] == es;
  }

  /** From a reachable state, an unsafe step leaves the balance broken, unless it was broken already. */
  lemma UnsafeBreaks<P>(c: Config, threads: nat, blank: P, es: seq<Event<P>>, e: Event<P>) returns (fs: seq<Event<P>>)
    requires Good(c) && Enabled(c, Run(c, threads, blank, es), e) && !Safe(c, Run(c, threads, blank, es), e)
    ensures (fs == [] || fs == [e]) && !Balanced(c, Run(c, threads, blank, es + fs))
  {
    RunOne(c, threads, blank, es, e);
    SlotsHandedOutOnce(c, threads, blank, es);
    if Balanced(c, Run(c, threads, blank, es)) {
      SafeExactly(c, Run(c, threads, blank, es), e);
      fs := [e];
    } else {
      fs := [];
      assert es + fs == es;
    }
  }

  function Sends<P>(k: nat): (fs: seq<Event<P>>)
    ensures Finishing(fs)
  {
    if k == 0 then [] else Sends(k - 1) + [SendOne]
  }

  /** The drainer has gone k slots further, and the slots before it are as they were. */
  ghost predicate SentOn<P>(c: Config, s: State<P>, t: State<P>, k: nat)
    requires Shaped(c, s) && Shaped(c, t) && s.drainer.Sending?
  {
    var ind := s.drainer.ind;
    && t.drainer == Sending(ind, s.drainer.i + k) && t.buckets[ind].count == s.buckets[ind].count
    && forall x | s.drainer.i + k <= x < c.n :: t.buckets[ind].tags[x] == s.buckets[ind].tags[x]
  }

  lemma SentOneMore<P>(c: Config, s: State<P>, t: State<P>, k: nat)
    requires Shaped(c, s) && Shaped(c, t) && s.drainer.Sending? && SentOn(c, s, t, k)
    requires s.drainer.i + k < Min(s.buckets[s.drainer.ind].count, c.n)
    ensures SentOn(c, s, Next(c, t, SendOne), k + 1)
  {
  }

  lemma {:induction false} SendsReach<P>(c: Config, threads: nat, blank: P, es: seq<Event<P>>, s: State<P>, k: nat)
    requires Good(c) && s == Run(c, threads, blank, es) && s.drainer.Sending?
    requires s.drainer.i + k <= Min(s.buckets[s.drainer.ind].count, c.n)
    ensures SentOn(c, s, Run(c, threads, blank, es + Sends(k)), k)
  {
    if k == 0 {
      assert es + Sends<P>(0) == es;
    } else {
      SendsReach(c, threads, blank, es, s, k - 1);
      SentOneMore(c, s, Run(c, threads, blank, es + Sends(k - 1)), k - 1);
      Reassociate(es, Sends(k - 1), [SendOne]);
      RunOne(c, threads, blank, es + Sends(k - 1), SendOne);
    }
  }

  lemma UnwrittenUnsafe<P>(c: Config, s: State<P>, t: State<P>, k: nat)
    requires Shaped(c, s) && Shaped(c, t) && s.drainer.Sending? && SentOn(c, s, t, k)
    requires var b, x := s.buckets[s.drainer.ind], s.drainer.i + k; x < Min(b.count, c.n) && b.tags[x] != Filled
    ensures Enabled(c, t, SendOne) && !Safe(c, t, SendOne)
  {
  }

  /** The drainer comes to a slot it counts but nobody has written. */
  lemma SendsUnwritten<P>(c: Config, threads: nat, blank: P, es: seq<Event<P>>, s: State<P>, x: nat)
    returns (fs: seq<Event<P>>)
    requires Good(c) && s == Run(c, threads, blank, es) && s.drainer.Sending?
    requires s.drainer.i <= x < Min(s.buckets[s.drainer.ind].count, c.n)
    requires s.buckets[s.drainer.ind].tags[x] != Filled
    ensures Finishing(fs) && !Balanced(c, Run(c, threads, blank, es + fs))
  {
    var k := x - s.drainer.i;
    SendsReach(c, threads, blank, es, s, k);
    UnwrittenUnsafe(c, s, Run(c, threads, blank, es + Sends(k)), k);
    var gs := UnsafeBreaks(c, threads, blank, es + Sends(k), SendOne);
    Reassociate(es, Sends(k), gs);
    fs := Sends(k) + gs;
  }

  /** The rest of a turn once the drainer has left its send loop. */
  function TurnEnd<P>(): seq<Event<P>> { [Clear, Bump, Wrap] }

  lemma TurnEnds<P>(c: Config, threads: nat, blank: P, es: seq<Event<P>>)
    requires Good(c) && Run(c, threads, blank, es).drainer.Leaving?
    ensures var s, t := Run(c, threads, blank, es), Run(c, threads, blank, es + TurnEnd());
            && t.drainer == Top && t.pushers == s.pushers
            && forall x | 0 <= x < c.n :: t.buckets[s.drainer.ind].tags[x] == Free
  {
    RunOne(c, threads, blank, es, Clear);
    RunOne(c, threads, blank, es + [Clear], Bump);
    RunOne(c, threads, blank, es + [Clear] + [Bump], Wrap);
    assert es + TurnEnd() == es + [Clear] + [Bump] + [Wrap];
  }

  /** A push that took a slot after the drainer's loop and before the clear writes to a slot no longer its own. */
  lemma WritesCleared<P>(c: Config, threads: nat, blank: P, es: seq<Event<P>>, p: nat) returns (fs: seq<Event<P>>)
    requires Good(c) && Run(c, threads, blank, es).drainer.Leaving?
    requires var s := Run(c, threads, blank, es);
             p < |s.pushers| && s.pushers[p].Writing? && s.pushers[p].ind == s.drainer.ind
    ensures Finishing(fs) && !Balanced(c, Run(c, threads, blank, es + fs))
  {
    TurnEnds(c, threads, blank, es);
    var gs := UnsafeBreaks(c, threads, blank, es + TurnEnd(), Write(p));
    Reassociate(es, TurnEnd(), gs);
    fs := TurnEnd() + gs;
  }

  lemma AfterLock<P>(c: Config, s: State<P>, p: nat)
    requires Sound(c, s) && Matched(c, s) && s.drainer.Top?
    requires p < |s.pushers| && s.pushers[p].Writing? && s.pushers[p].ind == s.k % c.m
    ensures var t, slot := Next(c, s, Lock), s.pushers[p].slot;
            && t.drainer == Sending(s.pushers[p].ind, 0)
            && var b := t.buckets[s.pushers[p].ind];
            slot < Min(b.count, c.n) && b.tags[slot] != Filled
  {
  }

  /** A drain that begins while push p holds a slot of its bucket comes to that slot before the push writes it. */
  lemma LockBreaks<P>(c: Config, threads: nat, blank: P, es: seq<Event<P>>, p: nat) returns (fs: seq<Event<P>>)
    requires Good(c) && DisciplinedRun(c, threads, blank, es)
    requires var s := Run(c, threads, blank, es);
             s.drainer.Top? && p < |s.pushers| && s.pushers[p].Writing? && s.pushers[p].ind == s.k % c.m
    ensures Finishing(fs) && !Balanced(c, Run(c, threads, blank, es + [Lock] + fs))
  {
    DisciplinedConserves(c, threads, blank, es);
    RunOne(c, threads, blank, es, Lock);
    AfterLock(c, Run(c, threads, blank, es), p);
    fs := SendsUnwritten(c, threads, blank, es + [Lock], Run(c, threads, blank, es + [Lock]),
                         Run(c, threads, blank, es).pushers[p].slot);
  }

  lemma AfterAdd<P>(c: Config, s: State<P>, p: nat)
    requires Shaped(c, s) && Enabled(c, s, Add(p)) && s.buckets[s.pushers[p].ind].count < c.n
    ensures var q, t := s.pushers[p], Next(c, s, Add(p));
            var b := s.buckets[q.ind];
            && t.drainer == s.drainer && t.pushers[p] == Writing(q.ind, b.count, q.pkt)
            && t.buckets[q.ind].count == b.count + 1 && t.buckets[q.ind].tags == b.tags[b.count := Reserved(p)]
  {
  }

  /** A slot taken while its bucket is drained is sent before it is written, or cleared before it is sent. */
  lemma AddBreaks<P>(c: Config, threads: nat, blank: P, es: seq<Event<P>>, p: nat) returns (fs: seq<Event<P>>)
    requires Good(c) && DisciplinedRun(c, threads, blank, es)
    requires var s := Run(c, threads, blank, es);
             && Enabled(c, s, Add(p)) && InWindow(s, s.pushers[p].ind) && s.buckets[s.pushers[p].ind].count < c.n
    ensures Finishing(fs) && !Balanced(c, Run(c, threads, blank, es + [Add(p)] + fs))
  {
    var s := Run(c, threads, blank, es);
    DisciplinedConserves(c, threads, blank, es);
    RunOne(c, threads, blank, es, Add(p));
    AfterAdd(c, s, p);
    if s.drainer.Sending? {
      fs := SendsUnwritten(c, threads, blank, es + [Add(p)], Run(c, threads, blank, es + [Add(p)]),
                           s.buckets[s.pushers[p].ind].count);
    } else {
      fs := WritesCleared(c, threads, blank, es + [Add(p)], p);
    }
  }

  /** After a step that breaks the discipline, what is under way can finish with a packet lost or repeated. */
  lemma UndisciplinedBreaks<P>(c: Config, threads: nat, blank: P, es: seq<Event<P>>, e: Event<P>)
    returns (fs: seq<Event<P>>)
    requires Good(c) && DisciplinedRun(c, threads, blank, es) && !Disciplined(c, Run(c, threads, blank, es), e)
    ensures Finishing(fs) && !Balanced(c, Run(c, threads, blank, es + [e] + fs))
  {
    var s := Run(c, threads, blank, es);
    match e
    case Lock =>
      var p :| 0 <= p < |s.pushers| && s.pushers[p].Writing? && s.pushers[p].ind == s.k % c.m;
      fs := LockBreaks(c, threads, blank, es, p);
    case Add(p) =>
      fs := AddBreaks(c, threads, blank, es, p);
  }

  /** However a run is stopped and its open turn and writes are finished, the balance holds. */
  ghost predicate ConservesThroughout<P(!new)>(c: Config, threads: nat, blank: P, es: seq<Event<P>>)
    requires Good(c)
  {
    forall i: nat, fs | i <= |es| && Finishing(fs) :: Balanced(c, Run(c, threads, blank, es[..i] + fs))
  }

  lemma {:induction false} DisciplinedPrefix<P>(c: Config, threads: nat, blank: P, es: seq<Event<P>>, i: nat)
    requires Good(c) && DisciplinedRun(c, threads, blank, es) && i <= |es|
    ensures DisciplinedRun(c, threads, blank, es[..i])
    decreases |es|
  {
    if i < |es| {
      DisciplinedPrefix(c, threads, blank, es[..|es| - 1], i);
      assert es[..|es| - 1][..i] == es[..i];
    } else {
      assert es[..i] == es;
    }
  }

  lemma ConservesBefore<P(!new)>(c: Config, threads: nat, blank: P, es: seq<Event<P>>, e: Event<P>)
    requires Good(c) && ConservesThroughout(c, threads, blank, es + [e])
    ensures ConservesThroughout(c, threads, blank, es)
  {
    forall i: nat, fs | i <= |es| && Finishing(fs)
      ensures Balanced(c, Run(c, threads, blank, es[..i] + fs))
    {
      assert (es + [e])[..i] == es[..i];
    }
  }

  lemma ConservesAtEnd<P(!new)>(c: Config, threads: nat, blank: P, es: seq<Event<P>>, fs: seq<Event<P>>)
    requires Good(c) && ConservesThroughout(c, threads, blank, es) && Finishing(fs)
    ensures Balanced(c, Run(c, threads, blank, es + fs))
  {
    assert es[..|es|] == es;
  }

  lemma LastDisciplined<P(!new)>(c: Config, threads: nat, blank: P, es: seq<Event<P>>, e: Event<P>)
    requires Good(c) && ConservesThroughout(c, threads, blank, es + [e]) && DisciplinedRun(c, threads, blank, es)
    ensures DisciplinedRun(c, threads, blank, es + [e])
  {
    assert (es + [e])[..|es|] == es;
    if !Disciplined(c, Run(c, threads, blank, es), e) {
      var fs := UndisciplinedBreaks(c, threads, blank, es, e);
      ConservesAtEnd(c, threads, blank, es + [e], fs);
    }
  }

  lemma {:induction false} ConservingDisciplined<P(!new)>(c: Config, threads: nat, blank: P, es: seq<Event<P>>)
    requires Good(c) && ConservesThroughout(c, threads, blank, es)
    ensures DisciplinedRun(c, threads, blank, es)
    decreases |es|
  {
    if es != [] {
      var before, e := es[..|es| - 1], es[|es| - 1];
      assert before + [e] == es;
      ConservesBefore(c, threads, blank, before, e);
      ConservingDisciplined(c, threads, blank, before);
      LastDisciplined(c, threads, blank, before, e);
    }
  }

  /** A run loses and repeats nothing, wherever it is stopped and finished, exactly when it is disciplined. */
  lemma ConservesExactly<P(!new)>(c: Config, threads: nat, blank: P, es: seq<Event<P>>)
    requires Good(c)
    ensures ConservesThroughout(c, threads, blank, es) <==> DisciplinedRun(c, threads, blank, es)
  {
    if DisciplinedRun(c, threads, blank, es) {
      forall i: nat, fs | i <= |es| && Finishing(fs)
        ensures Balanced(c, Run(c, threads, blank, es[..i] + fs))
      {
        DisciplinedPrefix(c, threads, blank, es, i);
        FinishingDisciplined(c, threads, blank, es[..i], fs);
        DisciplinedConserves(c, threads, blank, es[..i] + fs);
      }
    }
    if ConservesThroughout(c, threads, blank, es) {
      ConservingDisciplined(c, threads, blank, es);
    }
  }
}
