// The carousel taken apart, when nothing overlaps: runs in which no turn of the drainer falls inside a push and no push
// inside another do, push by push and drain by drain, what the schedule does. Times are counted in beats: a push of
// offset num is one whose time is num beats ahead.
module CarouselAtomic {
  import opened Basics
  import opened CarouselSteps
  import opened CarouselTurns
  import S = Schedule

  // ------------------------------------------------------------------ runs without overlap

  ghost predicate AllIdle<P>(s: State<P>) {
    forall p | 0 <= p < |s.pushers| :: s.pushers[p].Idle?
  }

  ghost predicate OnlyPusher<P>(s: State<P>, p: nat) {
    forall q | 0 <= q < |s.pushers| && q != p :: s.pushers[q].Idle?
  }

  /** Nobody else is in the middle of anything. */
  ghost predicate Alone<P>(s: State<P>, e: Event<P>) {
    match e
    case Begin(p, _, _) => s.drainer.Top? && OnlyPusher(s, p)
    case Choose(p) => s.drainer.Top? && OnlyPusher(s, p)
    case Add(p) => s.drainer.Top? && OnlyPusher(s, p)
    case Write(p) => s.drainer.Top? && OnlyPusher(s, p)
    case _ => AllIdle(s)
  }

  ghost predicate Apart<P>(c: Config, threads: nat, blank: P, es: seq<Event<P>>)
    requires Good(c)
  {
    es == [] || (
      var before, e := es[..|es| - 1], es[|es| - 1];
      && Apart(c, threads, blank, before)
      && (Enabled(c, Run(c, threads, blank, before), e) ==> Alone(Run(c, threads, blank, before), e)))
  }

  /** The operation this step completes: a push when it writes or gives up, a drain when it clears. */
  ghost function Completes<P>(c: Config, s: State<P>, e: Event<P>, first: nat -> nat): seq<S.Op<P>>
    requires Shaped(c, s)
  {
    if !Enabled(c, s, e) then []
    else
      match e
      case Write(p) => [S.Push(s.pushers[p].pkt, first(p), 0)]
      case Add(p) =>
        var q := s.pushers[p];
        if s.buckets[q.ind].count >= c.n && q.num == c.m then [S.Push(q.pkt, first(p), 0)] else []
      case Clear => [S.Drain]
      case _ => []
  }

  /** The pushes and drains of a run, in the order in which they are completed. */
  ghost function OpsOf<P>(c: Config, threads: nat, blank: P, es: seq<Event<P>>): seq<S.Op<P>>
    requires Good(c)
  {
    if es == [] then []
    else
      var before := es[..|es| - 1];
      OpsOf(c, threads, blank, before)
      + Completes(c, Run(c, threads, blank, before), es[|es| - 1],
                  (p: nat) => TriesOf(c, threads, blank, before, p).first)
  }

  /** What the drainer sent in turn u. */
  ghost function SentInTurn<P>(c: Config, threads: nat, blank: P, es: seq<Event<P>>, u: nat): seq<P>
    requires Good(c)
  {
    if es == [] then []
    else
      var before, e := es[..|es| - 1], es[|es| - 1];
      var s := Run(c, threads, blank, before);
      SentInTurn(c, threads, blank, before, u)
      + if e.SendOne? && Enabled(c, s, e) && Clears(c, threads, blank, before) == u
        then [s.buckets[s.drainer.ind].packets[s.drainer.i]] else []
  }

  // ------------------------------------------------------------------ buckets and plan

  /** The first slots of the bucket hold these packets, and it counts them. */
  ghost predicate Filled<P>(b: Bucket<P>, ps: seq<P>, n: nat) {
    |ps| == Min(b.count, n) && |ps| <= |b.packets| && forall x | 0 <= x < |ps| :: b.packets[x] == ps[x]
  }

  /** The bucket that the next drain to come will send. */
  function Base<P>(c: Config, s: State<P>): nat {
    var k := if s.drainer.Cleared? then s.k + 1 else s.k;
    if k < c.m then k else 0
  }

  ghost predicate Steady<P>(c: Config, s: State<P>, plan: S.Plan<P>)
    requires Shaped(c, s)
  {
    |plan| == c.m && forall j: nat | j < c.m :: Filled(s.buckets[Spot(Base(c, s), j, c.m)], plan[j], c.n)
  }

  /** The same but for a slot of bucket ind, at place j, that is given and not written. */
  ghost predicate AlmostSteady<P>(c: Config, s: State<P>, plan: S.Plan<P>, j: nat, ind: nat, slot: nat)
    requires Shaped(c, s)
  {
    && |plan| == c.m && j < c.m && ind == Spot(Base(c, s), j, c.m) && slot < c.n && |plan[j]| == slot
    && s.buckets[ind].count == slot + 1 && (forall x | 0 <= x < slot :: s.buckets[ind].packets[x] == plan[j][x])
    && (forall i: nat | i < c.m && i != j :: Filled(s.buckets[Spot(Base(c, s), i, c.m)], plan[i], c.n))
  }

  /** Where a push of first offset stands against the plan: what it tried was full, and it takes the first fit. */
  ghost predicate PushRel<P>(c: Config, s: State<P>, plan: S.Plan<P>, q: Pusher<P>, first: nat)
    requires Shaped(c, s)
  {
    match q
    case Idle => Steady(c, s, plan)
    case Choosing(num, _) =>
      && Steady(c, s, plan) && 1 <= first <= c.m - 1 && 1 <= num <= c.m
      && S.FirstFit(plan, c.n, first) == S.FirstFit(plan, c.n, num)
    case Adding(num, ind, _) =>
      && Steady(c, s, plan) && 1 <= first <= c.m - 1 && 1 <= num <= c.m && ind == Spot(Base(c, s), num, c.m)
      && S.FirstFit(plan, c.n, first) == S.FirstFit(plan, c.n, num)
    case Writing(ind, slot, _) =>
      && |plan| == c.m && 1 <= first <= c.m - 1
      && var fit := S.FirstFit(plan, c.n, first);
         fit.Some? && AlmostSteady(c, s, plan, S.Place(fit.value, c.m), ind, slot)
  }

  // ------------------------------------------------------------------ the steps of a push

  lemma SamePlace(k: nat, num: nat, m: nat)
    requires k < m && 1 <= num <= m
    ensures Spot(k, S.Place(num, m), m) == Spot(k, num, m)
  {
  }

  lemma BeginRel<P>(c: Config, s: State<P>, p: nat, num: nat, pkt: P, plan: S.Plan<P>)
    requires Shaped(c, s) && Enabled(c, s, Begin(p, num, pkt)) && Steady(c, s, plan)
    ensures var t := Step(c, s, Begin(p, num, pkt));
            Shaped(c, t) && PushRel(c, t, plan, t.pushers[p], num)
  {
    StepShaped(c, s, Begin(p, num, pkt));
  }

  lemma ChooseRel<P>(c: Config, s: State<P>, p: nat, plan: S.Plan<P>, first: nat)
    requires Shaped(c, s) && Enabled(c, s, Choose(p)) && s.drainer.Top? && PushRel(c, s, plan, s.pushers[p], first)
    ensures var t := Step(c, s, Choose(p));
            Shaped(c, t) && PushRel(c, t, plan, t.pushers[p], first)
  {
    StepShaped(c, s, Choose(p));
    SpotMod(s.k, s.pushers[p].num, c.m);
  }

  /** A slot is given at the first fit. */
  lemma AddFits<P>(c: Config, s: State<P>, p: nat, plan: S.Plan<P>, first: nat)
    requires Shaped(c, s) && Enabled(c, s, Add(p)) && s.drainer.Top? && PushRel(c, s, plan, s.pushers[p], first)
    requires s.buckets[s.pushers[p].ind].count < c.n
    ensures var t := AddStep(c, s, p);
            Shaped(c, t) && PushRel(c, t, plan, t.pushers[p], first)
  {
    StepShaped(c, s, Add(p));
    var q := s.pushers[p];
    SamePlace(s.k, q.num, c.m);
    assert S.FirstFit(plan, c.n, q.num) == Some(q.num);
    var j := S.Place(q.num, c.m);
    assert forall i: nat | i < c.m && i != j :: Spot(s.k, i, c.m) != q.ind;
  }

  lemma PassSteady<P>(c: Config, s: State<P>, p: nat, plan: S.Plan<P>)
    requires Shaped(c, s) && Enabled(c, s, Add(p)) && s.drainer.Top? && Steady(c, s, plan)
    requires s.buckets[s.pushers[p].ind].count >= c.n && Shaped(c, AddStep(c, s, p))
    ensures Steady(c, AddStep(c, s, p), plan)
  {
    forall j: nat | j < c.m
      ensures Filled(AddStep(c, s, p).buckets[Spot(Base(c, s), j, c.m)], plan[j], c.n)
    {
      assert Filled(s.buckets[Spot(Base(c, s), j, c.m)], plan[j], c.n);
    }
  }

  lemma FullPlace<P>(c: Config, s: State<P>, plan: S.Plan<P>, num: nat)
    requires Shaped(c, s) && s.drainer.Top? && Steady(c, s, plan) && 1 <= num <= c.m
    requires s.buckets[Spot(Base(c, s), num, c.m)].count >= c.n
    ensures S.FirstFit(plan, c.n, num) == if num < c.m then S.FirstFit(plan, c.n, num + 1) else None
  {
    SamePlace(s.k, num, c.m);
    assert Filled(s.buckets[Spot(Base(c, s), S.Place(num, c.m), c.m)], plan[S.Place(num, c.m)], c.n);
  }

  /** A full bucket is passed by, and its counter goes up. */
  lemma AddPasses<P>(c: Config, s: State<P>, p: nat, plan: S.Plan<P>, first: nat)
    requires Shaped(c, s) && Enabled(c, s, Add(p)) && s.drainer.Top? && PushRel(c, s, plan, s.pushers[p], first)
    requires s.buckets[s.pushers[p].ind].count >= c.n
    ensures var t := AddStep(c, s, p);
            && Shaped(c, t) && PushRel(c, t, plan, t.pushers[p], first)
            && (s.pushers[p].num == c.m ==> S.FirstFit(plan, c.n, first) == None)
  {
    StepShaped(c, s, Add(p));
    PassSteady(c, s, p, plan);
    FullPlace(c, s, plan, s.pushers[p].num);
    var q := s.pushers[p];
    assert AddStep(c, s, p).pushers[p] == if q.num < c.m then Choosing(q.num + 1, q.pkt) else Idle;
  }

  /** The write puts the packet at the end of its bucket. */
  lemma WriteRel<P>(c: Config, s: State<P>, p: nat, plan: S.Plan<P>, first: nat)
    requires Shaped(c, s) && Enabled(c, s, Write(p)) && s.drainer.Top? && PushRel(c, s, plan, s.pushers[p], first)
    ensures var t := WriteStep(s, p);
            && Shaped(c, t) && S.Accept(plan, c.n, first).Some?
            && Steady(c, t, S.Pushed(plan, c.n, first, s.pushers[p].pkt))
  {
    StepShaped(c, s, Write(p));
    var q, t := s.pushers[p], WriteStep(s, p);
    var j := S.Place(S.FirstFit(plan, c.n, first).value, c.m);
    forall i: nat | i < c.m && i != j
      ensures Filled(t.buckets[Spot(Base(c, t), i, c.m)], plan[i], c.n)
    {
      assert Spot(Base(c, s), i, c.m) != q.ind;
    }
  }

  // ------------------------------------------------------------------ the steps of a drain

  /** What the turn under way has sent of the plan. */
  ghost predicate TurnRel<P>(c: Config, s: State<P>, plan: S.Plan<P>, sent: seq<P>)
    requires Shaped(c, s) && |plan| == c.m
  {
    && (s.drainer.Sending? || s.drainer.Leaving? ==> s.drainer.ind == s.k)
    && (s.drainer.Sending? ==> s.drainer.i <= |plan[0]| && sent == plan[0][..s.drainer.i])
    && (s.drainer.Leaving? ==> sent == plan[0])
    && (!s.drainer.Sending? && !s.drainer.Leaving? ==> sent == [])
  }

  lemma SendRel<P>(c: Config, s: State<P>, plan: S.Plan<P>, sent: seq<P>)
    requires Shaped(c, s) && Enabled(c, s, SendOne) && Steady(c, s, plan) && TurnRel(c, s, plan, sent)
    ensures var t := SendStep(s);
            && Shaped(c, t) && Steady(c, t, plan)
            && TurnRel(c, t, plan, sent + [s.buckets[s.drainer.ind].packets[s.drainer.i]])
  {
    StepShaped(c, s, SendOne);
    var i := s.drainer.i;
    assert Filled(s.buckets[Spot(Base(c, s), 0, c.m)], plan[0], c.n);
    assert plan[0][..i + 1] == plan[0][..i] + [plan[0][i]];
    forall j: nat | j < c.m
      ensures Filled(SendStep(s).buckets[Spot(Base(c, s), j, c.m)], plan[j], c.n)
    {
      assert Filled(s.buckets[Spot(Base(c, s), j, c.m)], plan[j], c.n);
    }
  }

  lemma LeaveRel<P>(c: Config, s: State<P>, plan: S.Plan<P>, sent: seq<P>)
    requires Shaped(c, s) && Enabled(c, s, Leave) && Steady(c, s, plan) && TurnRel(c, s, plan, sent)
    ensures var t := Step(c, s, Leave);
            Shaped(c, t) && Steady(c, t, plan) && TurnRel(c, t, plan, sent)
  {
    StepShaped(c, s, Leave);
    assert Filled(s.buckets[Spot(Base(c, s), 0, c.m)], plan[0], c.n);
    assert plan[0][..|plan[0]|] == plan[0];
  }

  lemma ClearRel<P>(c: Config, s: State<P>, plan: S.Plan<P>, sent: seq<P>)
    requires Shaped(c, s) && Enabled(c, s, Clear) && Steady(c, s, plan) && TurnRel(c, s, plan, sent)
    ensures var t := ClearStep(s);
            Shaped(c, t) && Steady(c, t, S.Drained(plan)) && TurnRel(c, t, S.Drained(plan), []) && sent == plan[0]
  {
    StepShaped(c, s, Clear);
    var t := ClearStep(s);
    forall j: nat | j < c.m
      ensures Filled(t.buckets[Spot(Base(c, t), j, c.m)], S.Drained(plan)[j], c.n)
    {
      SpotNext(s.k, c.m, j);
      if j + 1 < c.m {
        assert Filled(s.buckets[Spot(Base(c, s), j + 1, c.m)], plan[j + 1], c.n);
      }
    }
  }

  /** Lock, Bump and Wrap leave the buckets and their order alone. */
  lemma MoveRel<P>(c: Config, s: State<P>, e: Event<P>, plan: S.Plan<P>, sent: seq<P>)
    requires Shaped(c, s) && Enabled(c, s, e) && (e.Lock? || e.Bump? || e.Wrap?)
    requires Steady(c, s, plan) && TurnRel(c, s, plan, sent)
    ensures var t := Step(c, s, e);
            Shaped(c, t) && Steady(c, t, plan) && TurnRel(c, t, plan, sent)
  {
    StepShaped(c, s, e);
    if s.k < c.m {
      ModIs(s.k, c.m, 0, s.k);
    } else {
      ModIs(s.k, c.m, 1, 0);
    }
  }

  // ------------------------------------------------------------------ runs

  /** At most one push or one turn is under way, and it stands to the plan as it should. */
  ghost predicate Rel<P>(c: Config, s: State<P>, plan: S.Plan<P>, first: nat -> nat)
    requires Shaped(c, s)
  {
    && (forall p, q | 0 <= p < |s.pushers| && 0 <= q < |s.pushers| && p != q ::
          s.pushers[p].Idle? || s.pushers[q].Idle?)
    && (!s.drainer.Top? ==> AllIdle(s)) && (AllIdle(s) ==> Steady(c, s, plan))
    && (forall p: nat | p < |s.pushers| && !s.pushers[p].Idle? :: PushRel(c, s, plan, s.pushers[p], first(p)))
  }

  lemma RelOfPusher<P>(c: Config, s: State<P>, plan: S.Plan<P>, first: nat -> nat, p: nat)
    requires Shaped(c, s) && Rel(c, s, plan, first) && p < |s.pushers| && OnlyPusher(s, p)
    ensures PushRel(c, s, plan, s.pushers[p], first(p))
  {
  }

  lemma PusherRel<P>(c: Config, s: State<P>, plan: S.Plan<P>, first: nat -> nat, p: nat)
    requires Shaped(c, s) && p < |s.pushers| && OnlyPusher(s, p) && s.drainer.Top?
    requires PushRel(c, s, plan, s.pushers[p], first(p))
    ensures Rel(c, s, plan, first)
  {
  }

  lemma DrainerRel<P>(c: Config, s: State<P>, plan: S.Plan<P>, first: nat -> nat)
    requires Shaped(c, s) && AllIdle(s) && Steady(c, s, plan)
    ensures Rel(c, s, plan, first)
  {
  }

  /** The state of the wheel and the schedule's log after the operations completed. */
  ghost predicate Matches<P>(c: Config, s: State<P>, l: S.Log<P>, first: nat -> nat, sent: seq<P>)
    requires Shaped(c, s)
  {
    && |l.plan| == c.m && Rel(c, s, l.plan, first) && TurnRel(c, s, l.plan, sent)
    && s.accepted == S.PacketsOf(l.accepted)
  }

  lemma OffsetOfBeats(first: nat)
    requires first >= 1
    ensures S.Offset(first, 0, 1) == first
  {
  }

  lemma PacketsMore<P>(accepted: seq<S.Entry<P>>, e: S.Entry<P>)
    ensures S.PacketsOf(accepted + [e]) == S.PacketsOf(accepted) + [e.p]
  {
  }

  /** The log after what a step completes. */
  ghost function After<P>(c: Config, s: State<P>, e: Event<P>, l: S.Log<P>, first: nat -> nat): S.Log<P>
    requires Shaped(c, s) && |l.plan| == c.m && Good(c)
  {
    S.Steps(l, c.n, 1, Completes(c, s, e, first))
  }

  lemma StepsOne<P>(l: S.Log<P>, n: nat, op: S.Op<P>)
    requires |l.plan| >= 2
    ensures S.Steps(l, n, 1, [op]) == S.Step(l, n, 1, op)
  {
    assert [op][..0] == [];
    assert S.Steps(l, n, 1, []) == l;
  }

  lemma WriteMatches<P>(c: Config, s: State<P>, p: nat, l: S.Log<P>, first: nat -> nat, sent: seq<P>)
    requires Shaped(c, s) && Enabled(c, s, Write(p)) && Alone(s, Write(p)) && Matches(c, s, l, first, sent)
    ensures var t := Step(c, s, Write(p));
            Shaped(c, t) && Matches(c, t, After(c, s, Write(p), l, first), first, sent)
  {
    var q, t := s.pushers[p], Step(c, s, Write(p));
    RelOfPusher(c, s, l.plan, first, p);
    WriteRel(c, s, p, l.plan, first(p));
    OffsetOfBeats(first(p));
    StepsOne(l, c.n, S.Push(q.pkt, first(p), 0));
    var r := S.Step(l, c.n, 1, S.Push(q.pkt, first(p), 0));
    PusherRel(c, t, r.plan, first, p);
    PacketsMore(l.accepted, r.accepted[|l.accepted|]);
  }

  lemma SlotMatches<P>(c: Config, s: State<P>, p: nat, l: S.Log<P>, first: nat -> nat, sent: seq<P>)
    requires Shaped(c, s) && Enabled(c, s, Add(p)) && Alone(s, Add(p)) && Matches(c, s, l, first, sent)
    requires s.buckets[s.pushers[p].ind].count < c.n
    ensures var t := Step(c, s, Add(p));
            Shaped(c, t) && Matches(c, t, l, first, sent)
  {
    RelOfPusher(c, s, l.plan, first, p);
    AddFits(c, s, p, l.plan, first(p));
    PusherRel(c, Step(c, s, Add(p)), l.plan, first, p);
  }

  /** A bucket that was full: on to the next, or the push gives up, and then the schedule refuses it too. */
  lemma FullMatches<P>(c: Config, s: State<P>, p: nat, l: S.Log<P>, first: nat -> nat, sent: seq<P>)
    requires Shaped(c, s) && Enabled(c, s, Add(p)) && Alone(s, Add(p)) && Matches(c, s, l, first, sent)
    requires s.buckets[s.pushers[p].ind].count >= c.n
    ensures var t := Step(c, s, Add(p));
            Shaped(c, t) && Matches(c, t, After(c, s, Add(p), l, first), first, sent)
  {
    var q := s.pushers[p];
    RelOfPusher(c, s, l.plan, first, p);
    AddPasses(c, s, p, l.plan, first(p));
    OffsetOfBeats(first(p));
    StepsOne(l, c.n, S.Push(q.pkt, first(p), 0));
    PusherRel(c, Step(c, s, Add(p)), l.plan, first, p);
  }

  lemma AddMatches<P>(c: Config, s: State<P>, p: nat, l: S.Log<P>, first: nat -> nat, sent: seq<P>)
    requires Shaped(c, s) && Enabled(c, s, Add(p)) && Alone(s, Add(p)) && Matches(c, s, l, first, sent)
    ensures var t := Step(c, s, Add(p));
            Shaped(c, t) && Matches(c, t, After(c, s, Add(p), l, first), first, sent)
  {
    if s.buckets[s.pushers[p].ind].count < c.n {
      SlotMatches(c, s, p, l, first, sent);
    } else {
      FullMatches(c, s, p, l, first, sent);
    }
  }

  lemma BeginMatches<P>(c: Config, s: State<P>, e: Event<P>, l: S.Log<P>, first: nat -> nat, next: nat -> nat,
                        sent: seq<P>)
    requires Shaped(c, s) && e.Begin? && Enabled(c, s, e) && Alone(s, e) && Matches(c, s, l, first, sent)
    requires next(e.p) == e.num
    ensures var t := Step(c, s, e);
            Shaped(c, t) && Matches(c, t, After(c, s, e, l, first), next, sent)
  {
    RelOfPusher(c, s, l.plan, first, e.p);
    BeginRel(c, s, e.p, e.num, e.pkt, l.plan);
    PusherRel(c, Step(c, s, e), l.plan, next, e.p);
  }

  lemma ChooseMatches<P>(c: Config, s: State<P>, p: nat, l: S.Log<P>, first: nat -> nat, sent: seq<P>)
    requires Shaped(c, s) && Enabled(c, s, Choose(p)) && Alone(s, Choose(p)) && Matches(c, s, l, first, sent)
    ensures var t := Step(c, s, Choose(p));
            Shaped(c, t) && Matches(c, t, After(c, s, Choose(p), l, first), first, sent)
  {
    RelOfPusher(c, s, l.plan, first, p);
    ChooseRel(c, s, p, l.plan, first(p));
    PusherRel(c, Step(c, s, Choose(p)), l.plan, first, p);
  }

  ghost function SentNow<P>(c: Config, s: State<P>, e: Event<P>): seq<P>
    requires Shaped(c, s)
  {
    if e.SendOne? && Enabled(c, s, e) then [s.buckets[s.drainer.ind].packets[s.drainer.i]] else []
  }

  lemma DrainerMatches<P>(c: Config, s: State<P>, e: Event<P>, l: S.Log<P>, first: nat -> nat, sent: seq<P>)
    requires Shaped(c, s) && Enabled(c, s, e) && Alone(s, e) && Matches(c, s, l, first, sent)
    requires e.Lock? || e.SendOne? || e.Leave? || e.Bump? || e.Wrap?
    ensures var t := Step(c, s, e);
            Shaped(c, t) && Matches(c, t, After(c, s, e, l, first), first, sent + SentNow(c, s, e))
  {
    assert sent + [] == sent;
    if e.SendOne? {
      SendRel(c, s, l.plan, sent);
    } else if e.Leave? {
      LeaveRel(c, s, l.plan, sent);
    } else {
      MoveRel(c, s, e, l.plan, sent);
    }
    DrainerRel(c, Step(c, s, e), l.plan, first);
  }

  lemma ClearMatches<P>(c: Config, s: State<P>, l: S.Log<P>, first: nat -> nat, sent: seq<P>)
    requires Shaped(c, s) && Enabled(c, s, Clear) && Alone(s, Clear) && Matches(c, s, l, first, sent)
    ensures var t := Step(c, s, Clear);
            Shaped(c, t) && Matches(c, t, After(c, s, Clear, l, first), first, []) && sent == l.plan[0]
  {
    ClearRel(c, s, l.plan, sent);
    StepsOne(l, c.n, S.Drain);
    DrainerRel(c, Step(c, s, Clear), S.Drained(l.plan), first);
  }

  /** One step: the operations it completes are operations of the schedule, and the rest is on its way. */
  lemma StepMatches<P>(c: Config, s: State<P>, e: Event<P>, l: S.Log<P>, first: nat -> nat, next: nat -> nat,
                       sent: seq<P>)
    requires Shaped(c, s) && Enabled(c, s, e) && Alone(s, e) && Matches(c, s, l, first, sent)
    requires forall p: nat :: next(p) == if e.Begin? && e.p == p then e.num else first(p)
    ensures var t := Step(c, s, e);
            && Shaped(c, t) && (e.Clear? ==> sent == l.plan[0])
            && Matches(c, t, After(c, s, e, l, first), next, if e.Clear? then [] else sent + SentNow(c, s, e))
  {
    assert sent + [] == sent;
    if e.Begin? {
      BeginMatches(c, s, e, l, first, next, sent);
    } else {
      if e.Choose? {
        ChooseMatches(c, s, e.p, l, first, sent);
      } else if e.Add? {
        AddMatches(c, s, e.p, l, first, sent);
      } else if e.Write? {
        WriteMatches(c, s, e.p, l, first, sent);
      } else if e.Clear? {
        ClearMatches(c, s, l, first, sent);
      } else {
        DrainerMatches(c, s, e, l, first, sent);
      }
      SameFirst(c, Step(c, s, e), After(c, s, e, l, first), first, next,
                if e.Clear? then [] else sent + SentNow(c, s, e));
    }
  }

  lemma SameFirst<P>(c: Config, s: State<P>, l: S.Log<P>, first: nat -> nat, next: nat -> nat, sent: seq<P>)
    requires Shaped(c, s) && Matches(c, s, l, first, sent) && forall p: nat :: next(p) == first(p)
    ensures Matches(c, s, l, next, sent)
  {
  }

  // ------------------------------------------------------------------ whole runs

  ghost function FirstOf<P>(c: Config, threads: nat, blank: P, es: seq<Event<P>>): nat -> nat
    requires Good(c)
  {
    (p: nat) => TriesOf(c, threads, blank, es, p).first
  }

  /** The schedule's run of the operations completed. */
  ghost function LogOf<P>(c: Config, threads: nat, blank: P, es: seq<Event<P>>): (l: S.Log<P>)
    requires Good(c)
    ensures |l.plan| == c.m
  {
    S.Run(c.m, c.n, 1, OpsOf(c, threads, blank, es))
  }

  lemma {:induction false} StepsConcat<P>(l: S.Log<P>, n: nat, a: seq<S.Op<P>>, b: seq<S.Op<P>>)
    requires |l.plan| >= 2
    ensures S.Steps(l, n, 1, a + b) == S.Steps(S.Steps(l, n, 1, a), n, 1, b)
  {
    if b == [] {
      assert a + b == a;
    } else {
      var k := |b| - 1;
      assert (a + b)[..|a| + k] == a + b[..k];
      StepsConcat(l, n, a, b[..k]);
    }
  }

  /** What turn u sent: all it should, when it is over; what the present turn has sent so far; else nothing. */
  ghost predicate TurnsMatch<P>(c: Config, threads: nat, blank: P, es: seq<Event<P>>, u: nat)
    requires Good(c)
  {
    var l, sent := LogOf(c, threads, blank, es), SentInTurn(c, threads, blank, es, u);
    && l.ticks == Clears(c, threads, blank, es) == |l.sent|
    && (u < l.ticks ==> sent == l.sent[u]) && (u > l.ticks ==> sent == [])
  }

  lemma NextLog<P>(c: Config, threads: nat, blank: P, es: seq<Event<P>>, e: Event<P>)
    requires Good(c)
    ensures LogOf(c, threads, blank, es + [e])
            == After(c, Run(c, threads, blank, es), e, LogOf(c, threads, blank, es), FirstOf(c, threads, blank, es))
  {
    assert (es + [e])[..|es|] == es;
    var s, ops := Run(c, threads, blank, es), OpsOf(c, threads, blank, es);
    var now := Completes(c, s, e, (p: nat) => TriesOf(c, threads, blank, es, p).first);
    assert OpsOf(c, threads, blank, es + [e]) == ops + now;
    assert now == Completes(c, s, e, FirstOf(c, threads, blank, es));
    StepsConcat(S.Empty<P>(c.m), c.n, ops, now);
  }

  lemma NextSent<P>(c: Config, threads: nat, blank: P, es: seq<Event<P>>, e: Event<P>, u: nat)
    requires Good(c)
    ensures var s, clears := Run(c, threads, blank, es), Clears(c, threads, blank, es);
            && Clears(c, threads, blank, es + [e]) == clears + (if e.Clear? && Enabled(c, s, e) then 1 else 0)
            && SentInTurn(c, threads, blank, es + [e], u)
               == SentInTurn(c, threads, blank, es, u) + if u == clears then SentNow(c, s, e) else []
  {
    assert (es + [e])[..|es|] == es;
  }

  lemma NextFirst<P>(c: Config, threads: nat, blank: P, es: seq<Event<P>>, e: Event<P>, p: nat)
    requires Good(c)
    ensures FirstOf(c, threads, blank, es + [e])(p)
            == if Enabled(c, Run(c, threads, blank, es), e) && e.Begin? && e.p == p then e.num
               else FirstOf(c, threads, blank, es)(p)
  {
    assert (es + [e])[..|es|] == es;
  }

  ghost predicate InStep<P>(c: Config, threads: nat, blank: P, es: seq<Event<P>>)
    requires Good(c)
  {
    Matches(c, Run(c, threads, blank, es), LogOf(c, threads, blank, es), FirstOf(c, threads, blank, es),
            SentInTurn(c, threads, blank, es, Clears(c, threads, blank, es)))
  }

  lemma NextRun<P>(c: Config, threads: nat, blank: P, es: seq<Event<P>>, e: Event<P>)
    requires Good(c)
    ensures Run(c, threads, blank, es + [e]) == Next(c, Run(c, threads, blank, es), e)
  {
    assert (es + [e])[..|es|] == es;
  }

  /** What the turn under way has sent, if this step does not end it. */
  lemma MidTurn<P>(c: Config, threads: nat, blank: P, es: seq<Event<P>>, e: Event<P>)
    requires Good(c) && !e.Clear?
    ensures var clears := Clears(c, threads, blank, es);
            SentInTurn(c, threads, blank, es + [e], Clears(c, threads, blank, es + [e]))
            == SentInTurn(c, threads, blank, es, clears) + SentNow(c, Run(c, threads, blank, es), e)
  {
    NextSent(c, threads, blank, es, e, Clears(c, threads, blank, es));
  }

  lemma OtherTurn<P>(c: Config, threads: nat, blank: P, es: seq<Event<P>>, e: Event<P>, u: nat)
    requires Good(c) && u != Clears(c, threads, blank, es)
    ensures SentInTurn(c, threads, blank, es + [e], u) == SentInTurn(c, threads, blank, es, u)
  {
    NextSent(c, threads, blank, es, e, u);
    assert SentInTurn(c, threads, blank, es, u) + [] == SentInTurn(c, threads, blank, es, u);
  }

  lemma NextClears<P>(c: Config, threads: nat, blank: P, es: seq<Event<P>>, e: Event<P>)
    requires Good(c) && Enabled(c, Run(c, threads, blank, es), e) && e.Clear?
    ensures Clears(c, threads, blank, es + [e]) == Clears(c, threads, blank, es) + 1
  {
    NextSent(c, threads, blank, es, e, 0);
  }

  /** What the next turn has sent, when this step ends the one before it. */
  lemma NewTurn<P>(c: Config, threads: nat, blank: P, es: seq<Event<P>>, e: Event<P>, next: nat)
    requires Good(c) && Enabled(c, Run(c, threads, blank, es), e) && e.Clear?
    requires next == Clears(c, threads, blank, es) + 1 && SentInTurn(c, threads, blank, es, next) == []
    ensures SentInTurn(c, threads, blank, es + [e], Clears(c, threads, blank, es + [e])) == []
  {
    OtherTurn(c, threads, blank, es, e, next);
    NextClears(c, threads, blank, es, e);
  }

  /** A step on what the wheel, the log and the present turn are, with the offsets of the run before it and after it. */
  lemma NextMatches<P>(c: Config, threads: nat, blank: P, es: seq<Event<P>>, e: Event<P>, s: State<P>, l: S.Log<P>,
                       sent: seq<P>)
    requires Good(c) && s == Run(c, threads, blank, es) && Enabled(c, s, e) && Alone(s, e)
    requires Matches(c, s, l, FirstOf(c, threads, blank, es), sent)
    ensures var t := Step(c, s, e);
            && Shaped(c, t) && (e.Clear? ==> sent == l.plan[0])
            && Matches(c, t, After(c, s, e, l, FirstOf(c, threads, blank, es)), FirstOf(c, threads, blank, es + [e]),
                       if e.Clear? then [] else sent + SentNow(c, s, e))
  {
    var first, next := FirstOf(c, threads, blank, es), FirstOf(c, threads, blank, es + [e]);
    forall p: nat
      ensures next(p) == if e.Begin? && e.p == p then e.num else first(p)
    {
      NextFirst(c, threads, blank, es, e, p);
    }
    StepMatches(c, s, e, l, first, next, sent);
  }

  lemma NextEnabled<P>(c: Config, threads: nat, blank: P, es: seq<Event<P>>, e: Event<P>)
    requires Good(c) && Enabled(c, Run(c, threads, blank, es), e)
    ensures Run(c, threads, blank, es + [e]) == Step(c, Run(c, threads, blank, es), e)
  {
    NextRun(c, threads, blank, es, e);
  }

  lemma NextInStep<P>(c: Config, threads: nat, blank: P, es: seq<Event<P>>, e: Event<P>, next: nat)
    requires Good(c) && InStep(c, threads, blank, es)
    requires Enabled(c, Run(c, threads, blank, es), e) && Alone(Run(c, threads, blank, es), e)
    requires next == Clears(c, threads, blank, es) + 1 && SentInTurn(c, threads, blank, es, next) == []
    ensures InStep(c, threads, blank, es + [e])
    ensures e.Clear? ==>
              SentInTurn(c, threads, blank, es, Clears(c, threads, blank, es)) == LogOf(c, threads, blank, es).plan[0]
  {
    var sent := SentInTurn(c, threads, blank, es, Clears(c, threads, blank, es));
    NextMatches(c, threads, blank, es, e, Run(c, threads, blank, es), LogOf(c, threads, blank, es), sent);
    NextEnabled(c, threads, blank, es, e);
    if e.Clear? {
      NewTurn(c, threads, blank, es, e, next);
    } else {
      MidTurn(c, threads, blank, es, e);
    }
    NextLog(c, threads, blank, es, e);
  }

  lemma NextTurns<P>(c: Config, threads: nat, blank: P, es: seq<Event<P>>, e: Event<P>, u: nat)
    requires Good(c) && TurnsMatch(c, threads, blank, es, u) && Enabled(c, Run(c, threads, blank, es), e)
    requires e.Clear? ==>
               SentInTurn(c, threads, blank, es, Clears(c, threads, blank, es)) == LogOf(c, threads, blank, es).plan[0]
    ensures TurnsMatch(c, threads, blank, es + [e], u)
  {
    var s, l := Run(c, threads, blank, es), LogOf(c, threads, blank, es);
    NextLog(c, threads, blank, es, e);
    NextSent(c, threads, blank, es, e, u);
    AfterSent(c, s, e, l, FirstOf(c, threads, blank, es));
    var sent := SentInTurn(c, threads, blank, es, u);
    assert sent + [] == sent;
  }

  lemma AfterSent<P>(c: Config, s: State<P>, e: Event<P>, l: S.Log<P>, first: nat -> nat)
    requires Shaped(c, s) && Enabled(c, s, e) && |l.plan| == c.m
    ensures var r := After(c, s, e, l, first);
            if e.Clear? then r.sent == l.sent + [l.plan[0]] && r.ticks == l.ticks + 1
            else r.sent == l.sent && r.ticks == l.ticks
  {
    var now := Completes(c, s, e, first);
    if now != [] {
      StepsOne(l, c.n, now[0]);
      assert now == [now[0]];
    }
  }

  /** A step the code cannot take changes nothing. */
  lemma NextNothing<P>(c: Config, threads: nat, blank: P, es: seq<Event<P>>, e: Event<P>, u: nat)
    requires Good(c) && InStep(c, threads, blank, es) && TurnsMatch(c, threads, blank, es, u)
    requires !Enabled(c, Run(c, threads, blank, es), e)
    ensures InStep(c, threads, blank, es + [e]) && TurnsMatch(c, threads, blank, es + [e], u)
  {
    var clears := Clears(c, threads, blank, es);
    NextRun(c, threads, blank, es, e);
    NextLog(c, threads, blank, es, e);
    NextSent(c, threads, blank, es, e, u);
    NextSent(c, threads, blank, es, e, clears);
    assert SentInTurn(c, threads, blank, es, clears) + [] == SentInTurn(c, threads, blank, es, clears);
    forall p: nat
      ensures FirstOf(c, threads, blank, es + [e])(p) == FirstOf(c, threads, blank, es)(p)
    {
      NextFirst(c, threads, blank, es, e, p);
    }
    SameFirst(c, Run(c, threads, blank, es), LogOf(c, threads, blank, es), FirstOf(c, threads, blank, es),
              FirstOf(c, threads, blank, es + [e]), SentInTurn(c, threads, blank, es, clears));
  }

  lemma InitialInStep<P>(c: Config, threads: nat, blank: P, u: nat)
    requires Good(c)
    ensures InStep(c, threads, blank, []) && TurnsMatch(c, threads, blank, [], u)
  {
    assert S.PacketsOf<P>([]) == [];
  }

  lemma {:induction false} ApartInStep<P>(c: Config, threads: nat, blank: P, es: seq<Event<P>>, u: nat)
    requires Good(c) && Apart(c, threads, blank, es)
    ensures InStep(c, threads, blank, es) && TurnsMatch(c, threads, blank, es, u)
    decreases |es|
  {
    if es == [] {
      InitialInStep(c, threads, blank, u);
    } else {
      var before, e := es[..|es| - 1], es[|es| - 1];
      assert before + [e] == es;
      ApartInStep(c, threads, blank, before, u);
      if Enabled(c, Run(c, threads, blank, before), e) {
        var next := Clears(c, threads, blank, before) + 1;
        ApartInStep(c, threads, blank, before, next);
        NextInStep(c, threads, blank, before, e, next);
        NextTurns(c, threads, blank, before, e, u);
      } else {
        NextNothing(c, threads, blank, before, e, u);
      }
    }
  }

  lemma InStepAccepts<P>(c: Config, threads: nat, blank: P, es: seq<Event<P>>)
    requires Good(c) && InStep(c, threads, blank, es)
    ensures Run(c, threads, blank, es).accepted == S.PacketsOf(LogOf(c, threads, blank, es).accepted)
  {
  }

  lemma TurnSent<P>(c: Config, threads: nat, blank: P, es: seq<Event<P>>, u: nat)
    requires Good(c) && TurnsMatch(c, threads, blank, es, u)
    ensures var l := LogOf(c, threads, blank, es);
            && |l.sent| == Clears(c, threads, blank, es)
            && (u < |l.sent| ==> SentInTurn(c, threads, blank, es, u) == l.sent[u])
  {
  }

  /**
   * In a run without overlap the wheel accepts, in order, exactly the packets that the schedule's run of the same
   * pushes and drains accepts, and each turn of the drainer that is over sent exactly what that run sends in its drain.
   */
  lemma ApartRefines<P>(c: Config, threads: nat, blank: P, es: seq<Event<P>>, u: nat)
    requires Good(c) && Apart(c, threads, blank, es)
    ensures var l := S.Run(c.m, c.n, 1, OpsOf(c, threads, blank, es));
            && Run(c, threads, blank, es).accepted == S.PacketsOf(l.accepted)
            && |l.sent| == Clears(c, threads, blank, es)
            && (u < |l.sent| ==> SentInTurn(c, threads, blank, es, u) == l.sent[u])
  {
    ApartInStep(c, threads, blank, es, u);
    InStepAccepts(c, threads, blank, es);
    TurnSent(c, threads, blank, es, u);
  }
}
