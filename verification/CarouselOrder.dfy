// The order inside a bucket when pushes run beside a drain: round by round, a bucket is sent in the order in which its
// slots were handed out. A round of a bucket is what lies between two of its clears; its number is the epoch.
module CarouselOrder {
  import opened Basics
  import opened CarouselSteps
  import opened CarouselDiscipline

  // ------------------------------------------------------------------ what a round is given and sends

  /** The packet that this step gives a slot of bucket i in round ep. */
  ghost function GrantedBy<P>(c: Config, s: State<P>, e: Event<P>, i: nat, ep: nat): seq<P>
    requires Shaped(c, s)
  {
    if e.Add? && Enabled(c, s, e) && s.pushers[e.p].ind == i && s.buckets[i].epoch == ep && s.buckets[i].count < c.n
    then [s.pushers[e.p].pkt] else []
  }

  /** The packet that this step sends from bucket i in round ep. */
  ghost function SentBy<P>(c: Config, s: State<P>, e: Event<P>, i: nat, ep: nat): seq<P>
    requires Shaped(c, s)
  {
    if e.SendOne? && Enabled(c, s, e) && s.drainer.ind == i && s.buckets[i].epoch == ep
    then [s.buckets[i].packets[s.drainer.i]] else []
  }

  /** The packets given slots of bucket i in round ep, in the order of fetch_add. */
  ghost function GrantedIn<P>(c: Config, threads: nat, blank: P, es: seq<Event<P>>, i: nat, ep: nat): seq<P>
    requires Good(c)
  {
    if es == [] then []
    else
      var before := es[..|es| - 1];
      GrantedIn(c, threads, blank, before, i, ep) + GrantedBy(c, Run(c, threads, blank, before), es[|es| - 1], i, ep)
  }

  /** What the drainer sent of bucket i in round ep, in order. */
  ghost function SentIn<P>(c: Config, threads: nat, blank: P, es: seq<Event<P>>, i: nat, ep: nat): seq<P>
    requires Good(c)
  {
    if es == [] then []
    else
      var before := es[..|es| - 1];
      SentIn(c, threads, blank, before, i, ep) + SentBy(c, Run(c, threads, blank, before), es[|es| - 1], i, ep)
  }

  // ------------------------------------------------------------------ the x-th of a round has slot x

  ghost predicate Numbered<P>(c: Config, s: State<P>, i: nat, ep: nat, granted: nat)
    requires Shaped(c, s) && i < c.m
  {
    && (forall x: nat :: Grant(i, ep, x) in s.grants <==> x < granted)
    && (s.buckets[i].epoch < ep ==> granted == 0)
    && (s.buckets[i].epoch == ep ==> granted == Min(s.buckets[i].count, c.n))
  }

  lemma AddNumbered<P>(c: Config, s: State<P>, p: nat, i: nat, ep: nat, granted: nat)
    requires Shaped(c, s) && Enabled(c, s, Add(p)) && i < c.m && Numbered(c, s, i, ep, granted)
    requires Shaped(c, AddStep(c, s, p))
    ensures Numbered(c, AddStep(c, s, p), i, ep, granted + |GrantedBy(c, s, Add(p), i, ep)|)
  {
    var q, t := s.pushers[p], AddStep(c, s, p);
    var b := s.buckets[q.ind];
    if b.count < c.n {
      assert t.grants == s.grants + [Grant(q.ind, b.epoch, b.count)];
    } else {
      assert t.grants == s.grants;
    }
  }

  lemma StepNumbered<P>(c: Config, s: State<P>, e: Event<P>, i: nat, ep: nat, granted: nat)
    requires Shaped(c, s) && Enabled(c, s, e) && i < c.m && Numbered(c, s, i, ep, granted)
    ensures Shaped(c, Step(c, s, e))
    ensures Numbered(c, Step(c, s, e), i, ep, granted + |GrantedBy(c, s, e, i, ep)|)
  {
    StepShaped(c, s, e);
    if e.Add? {
      AddNumbered(c, s, e.p, i, ep, granted);
    } else {
      assert Step(c, s, e).grants == s.grants;
    }
  }

  /** In every run the slots of a round handed out are the first ones, one for each packet of the round in turn. */
  lemma {:induction false} SlotsInTurn<P>(c: Config, threads: nat, blank: P, es: seq<Event<P>>, i: nat, ep: nat)
    requires Good(c) && i < c.m
    ensures Numbered(c, Run(c, threads, blank, es), i, ep, |GrantedIn(c, threads, blank, es, i, ep)|)
  {
    if es != [] {
      var before, e := es[..|es| - 1], es[|es| - 1];
      SlotsInTurn(c, threads, blank, before, i, ep);
      if Enabled(c, Run(c, threads, blank, before), e) {
        StepNumbered(c, Run(c, threads, blank, before), e, i, ep, |GrantedIn(c, threads, blank, before, i, ep)|);
      }
    }
  }

  // ------------------------------------------------------------------ and is sent in that place

  /** A pusher about to write to bucket i has the packet its slot was given for. */
  ghost predicate Carries<P>(q: Pusher<P>, i: nat, granted: seq<P>) {
    q.Writing? && q.ind == i ==> q.slot < |granted| && q.pkt == granted[q.slot]
  }

  /** The round under way: what is written is in its place, and what is sent is what the drainer has gone over. */
  ghost predicate Current<P>(c: Config, s: State<P>, i: nat, granted: seq<P>, sent: seq<P>)
    requires Shaped(c, s) && i < c.m
  {
    var b := s.buckets[i];
    && |granted| == Min(b.count, c.n)
    && (forall x | 0 <= x < |granted| && b.tags[x] == Filled :: b.packets[x] == granted[x])
    && (forall p | 0 <= p < |s.pushers| :: Carries(s.pushers[p], i, granted))
    && (if !InWindow(s, i) then sent == []
        else if s.drainer.Sending? then s.drainer.i <= |granted| && sent == granted[..s.drainer.i]
        else sent == granted)
  }

  /** Nothing of a round is sent before it, and all of it after it. */
  ghost predicate OnTrack<P>(c: Config, s: State<P>, i: nat, ep: nat, granted: seq<P>, sent: seq<P>)
    requires Shaped(c, s) && i < c.m
  {
    if s.buckets[i].epoch < ep then granted == sent == []
    else if s.buckets[i].epoch > ep then sent == granted
    else Current(c, s, i, granted, sent)
  }

  /** A slot is given while the bucket is not being drained. */
  lemma GrantCurrent<P>(c: Config, s: State<P>, p: nat, i: nat, granted: seq<P>, sent: seq<P>)
    requires Shaped(c, s) && Enabled(c, s, Add(p)) && s.pushers[p].ind == i < c.m && s.buckets[i].count < c.n
    requires Current(c, s, i, granted, sent) && !InWindow(s, i) && Shaped(c, AddStep(c, s, p))
    ensures Current(c, AddStep(c, s, p), i, granted + [s.pushers[p].pkt], sent)
  {
  }

  /** A fetch_add on another bucket, or on a full one. */
  lemma AddCurrent<P>(c: Config, s: State<P>, p: nat, i: nat, granted: seq<P>, sent: seq<P>)
    requires Shaped(c, s) && Enabled(c, s, Add(p)) && i < c.m && Shaped(c, AddStep(c, s, p))
    requires Current(c, s, i, granted, sent) && (s.pushers[p].ind != i || s.buckets[i].count >= c.n)
    ensures Current(c, AddStep(c, s, p), i, granted, sent)
  {
  }

  lemma WriteCurrent<P>(c: Config, s: State<P>, p: nat, i: nat, granted: seq<P>, sent: seq<P>)
    requires Shaped(c, s) && Enabled(c, s, Write(p)) && i < c.m && Shaped(c, WriteStep(s, p))
    requires Current(c, s, i, granted, sent)
    ensures Current(c, WriteStep(s, p), i, granted, sent)
  {
    var q := s.pushers[p];
    assert Carries(q, i, granted);
  }

  lemma SendCurrent<P>(c: Config, s: State<P>, i: nat, granted: seq<P>, sent: seq<P>)
    requires Shaped(c, s) && Enabled(c, s, SendOne) && s.drainer.ind == i && Shaped(c, SendStep(s))
    requires Current(c, s, i, granted, sent) && s.buckets[i].tags[s.drainer.i] == Filled
    ensures Current(c, SendStep(s), i, granted, sent + [s.buckets[i].packets[s.drainer.i]])
  {
    var y := s.drainer.i;
    assert granted[..y + 1] == granted[..y] + [granted[y]];
  }

  lemma SendElsewhere<P>(c: Config, s: State<P>, i: nat, granted: seq<P>, sent: seq<P>)
    requires Shaped(c, s) && Enabled(c, s, SendOne) && s.drainer.ind != i < c.m && Shaped(c, SendStep(s))
    requires Current(c, s, i, granted, sent)
    ensures Current(c, SendStep(s), i, granted, sent)
  {
  }

  /** Steps that leave every bucket alone. */
  lemma OtherCurrent<P>(c: Config, s: State<P>, e: Event<P>, i: nat, granted: seq<P>, sent: seq<P>)
    requires Shaped(c, s) && Enabled(c, s, e) && i < c.m && Shaped(c, Step(c, s, e))
    requires !e.Add? && !e.Write? && !e.SendOne? && !e.Clear? && Current(c, s, i, granted, sent)
    ensures Current(c, Step(c, s, e), i, granted, sent)
  {
    if e.Leave? && s.drainer.ind == i {
      assert granted[..s.drainer.i] == granted;
    }
  }

  lemma ClearElsewhere<P>(c: Config, s: State<P>, i: nat, granted: seq<P>, sent: seq<P>)
    requires Shaped(c, s) && Enabled(c, s, Clear) && s.drainer.ind != i < c.m && Shaped(c, ClearStep(s))
    requires Current(c, s, i, granted, sent)
    ensures Current(c, ClearStep(s), i, granted, sent)
  {
  }

  /** A new round begins with nothing. */
  lemma ClearBegins<P>(c: Config, s: State<P>, i: nat)
    requires Shaped(c, s) && Enabled(c, s, Clear) && s.drainer.ind == i && Shaped(c, ClearStep(s))
    requires forall p | 0 <= p < |s.pushers| :: !(s.pushers[p].Writing? && s.pushers[p].ind == i)
    ensures Current(c, ClearStep(s), i, [], [])
  {
  }

  /** When a bucket is cleared, all its slots have been sent and no push is about to write to it. */
  lemma NoneWriting<P>(c: Config, s: State<P>)
    requires Clean(c, s) && s.drainer.Leaving?
    ensures forall p | 0 <= p < |s.pushers| :: !(s.pushers[p].Writing? && s.pushers[p].ind == s.drainer.ind)
  {
  }

  lemma AddRound<P>(c: Config, s: State<P>, p: nat, i: nat, granted: seq<P>, sent: seq<P>)
    requires Shaped(c, s) && Enabled(c, s, Add(p)) && Disciplined(c, s, Add(p)) && i < c.m
    requires Shaped(c, AddStep(c, s, p)) && Current(c, s, i, granted, sent)
    ensures Current(c, AddStep(c, s, p), i, granted + GrantedBy(c, s, Add(p), i, s.buckets[i].epoch), sent)
  {
    if s.pushers[p].ind == i && s.buckets[i].count < c.n {
      GrantCurrent(c, s, p, i, granted, sent);
    } else {
      assert granted + [] == granted;
      AddCurrent(c, s, p, i, granted, sent);
    }
  }

  lemma SendRound<P>(c: Config, s: State<P>, i: nat, granted: seq<P>, sent: seq<P>)
    requires Shaped(c, s) && Enabled(c, s, SendOne) && Safe(c, s, SendOne) && i < c.m
    requires Shaped(c, SendStep(s)) && Current(c, s, i, granted, sent)
    ensures Current(c, SendStep(s), i, granted, sent + SentBy(c, s, SendOne, i, s.buckets[i].epoch))
  {
    if s.drainer.ind == i {
      SendCurrent(c, s, i, granted, sent);
    } else {
      assert sent + [] == sent;
      SendElsewhere(c, s, i, granted, sent);
    }
  }

  /** A step inside the round under way. */
  lemma CurrentRound<P>(c: Config, s: State<P>, e: Event<P>, i: nat, granted: seq<P>, sent: seq<P>)
    requires Shaped(c, s) && Enabled(c, s, e) && Disciplined(c, s, e) && Safe(c, s, e) && i < c.m
    requires Shaped(c, Step(c, s, e)) && Current(c, s, i, granted, sent) && (e.Clear? ==> s.drainer.ind != i)
    ensures var ep := s.buckets[i].epoch;
            Current(c, Step(c, s, e), i, granted + GrantedBy(c, s, e, i, ep), sent + SentBy(c, s, e, i, ep))
  {
    assert granted + [] == granted && sent + [] == sent;
    match e
    case Add(p) => AddRound(c, s, p, i, granted, sent);
    case Write(p) => WriteCurrent(c, s, p, i, granted, sent);
    case SendOne => SendRound(c, s, i, granted, sent);
    case Clear => ClearElsewhere(c, s, i, granted, sent);
    case _ => OtherCurrent(c, s, e, i, granted, sent);
  }

  lemma EpochMoves<P>(c: Config, s: State<P>, e: Event<P>, i: nat)
    requires Shaped(c, s) && Enabled(c, s, e) && i < c.m && Shaped(c, Step(c, s, e))
    ensures Step(c, s, e).buckets[i].epoch
            == s.buckets[i].epoch + if e.Clear? && s.drainer.ind == i then 1 else 0
  {
  }

  /** The clear that ends a round and begins the next. */
  lemma ClearRound<P>(c: Config, s: State<P>, i: nat, ep: nat, granted: seq<P>, sent: seq<P>)
    requires Clean(c, s) && Enabled(c, s, Clear) && s.drainer.ind == i < c.m && Shaped(c, ClearStep(s))
    requires OnTrack(c, s, i, ep, granted, sent)
    ensures OnTrack(c, ClearStep(s), i, ep, granted, sent)
  {
    NoneWriting(c, s);
    ClearBegins(c, s, i);
    EpochMoves(c, s, Clear, i);
  }

  lemma StepOnTrack<P>(c: Config, s: State<P>, e: Event<P>, i: nat, ep: nat, granted: seq<P>, sent: seq<P>)
    requires Clean(c, s) && Enabled(c, s, e) && Disciplined(c, s, e) && i < c.m && Shaped(c, Step(c, s, e))
    requires OnTrack(c, s, i, ep, granted, sent)
    ensures OnTrack(c, Step(c, s, e), i, ep, granted + GrantedBy(c, s, e, i, ep), sent + SentBy(c, s, e, i, ep))
  {
    assert granted + [] == granted && sent + [] == sent;
    EpochMoves(c, s, e, i);
    if e.Clear? && s.drainer.ind == i {
      ClearRound(c, s, i, ep, granted, sent);
    } else if s.buckets[i].epoch == ep {
      CleanSafe(c, s, e);
      CurrentRound(c, s, e, i, granted, sent);
    }
  }

  lemma NextOnTrack<P>(c: Config, s: State<P>, e: Event<P>, i: nat, ep: nat, granted: seq<P>, sent: seq<P>)
    requires Clean(c, s) && Disciplined(c, s, e) && i < c.m && OnTrack(c, s, i, ep, granted, sent)
    ensures OnTrack(c, Next(c, s, e), i, ep, granted + GrantedBy(c, s, e, i, ep), sent + SentBy(c, s, e, i, ep))
  {
    if Enabled(c, s, e) {
      StepShaped(c, s, e);
      StepOnTrack(c, s, e, i, ep, granted, sent);
    } else {
      assert granted + [] == granted && sent + [] == sent;
    }
  }

  lemma InitialOnTrack<P>(c: Config, threads: nat, blank: P, i: nat, ep: nat)
    requires Good(c) && i < c.m
    ensures OnTrack(c, Initial(c, threads, blank), i, ep, [], [])
  {
  }

  lemma {:induction false} RoundOnTrack<P>(c: Config, threads: nat, blank: P, es: seq<Event<P>>, i: nat, ep: nat)
    requires Good(c) && DisciplinedRun(c, threads, blank, es) && i < c.m
    ensures OnTrack(c, Run(c, threads, blank, es), i, ep, GrantedIn(c, threads, blank, es, i, ep),
                    SentIn(c, threads, blank, es, i, ep))
  {
    if es == [] {
      InitialOnTrack(c, threads, blank, i, ep);
    } else {
      var before := es[..|es| - 1];
      RoundOnTrack(c, threads, blank, before, i, ep);
      DisciplinedConserves(c, threads, blank, before);
      NextOnTrack(c, Run(c, threads, blank, before), es[|es| - 1], i, ep,
                  GrantedIn(c, threads, blank, before, i, ep), SentIn(c, threads, blank, before, i, ep));
    }
  }

  /**
   * In a disciplined run, what a drain sends of a bucket is, in order, the packets of the slots handed out since the
   * clear before: slot 0, slot 1, and so on, none left out once the bucket has been cleared again.
   */
  lemma DrainsInOrder<P>(c: Config, threads: nat, blank: P, es: seq<Event<P>>, i: nat, ep: nat)
    requires Good(c) && DisciplinedRun(c, threads, blank, es) && i < c.m
    ensures var granted, sent := GrantedIn(c, threads, blank, es, i, ep), SentIn(c, threads, blank, es, i, ep);
            var s := Run(c, threads, blank, es);
            && sent <= granted && (s.buckets[i].epoch > ep ==> sent == granted)
            && forall x: nat :: Grant(i, ep, x) in s.grants <==> x < |granted|
  {
    RoundOnTrack(c, threads, blank, es, i, ep);
    SlotsInTurn(c, threads, blank, es, i, ep);
  }
}
