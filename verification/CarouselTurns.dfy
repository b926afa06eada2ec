// Which bucket a push goes to, and when that bucket is drained, when pushes run beside the drainer. Turn u is the u-th
// time the drainer goes round its loop; it drains bucket u mod M, which is round u / M of that bucket.
module CarouselTurns {
  import opened Basics
  import opened CarouselSteps

  // ------------------------------------------------------------------ counting modulo M

  lemma ModIs(a: nat, m: nat, q: nat, r: nat)
    requires r < m && a == m * q + r
    ensures a % m == r
  {
    var p := a / m;
    assert m * (p - q) == m * p - m * q;
    NoMultiple(m, p - q);
  }

  lemma NoMultiple(m: int, x: int)
    requires -m < m * x < m
    ensures x == 0
  {
  }

  lemma ModSucc(a: nat, m: nat)
    requires m > 0
    ensures (a + 1) % m == if a % m + 1 == m then 0 else a % m + 1
  {
    var q, r := a / m, a % m;
    assert a == m * q + r;
    if r + 1 == m {
      assert m * (q + 1) == m * q + m;
      ModIs(a + 1, m, q + 1, 0);
    } else {
      ModIs(a + 1, m, q, r + 1);
    }
  }

  lemma {:induction false} ModSame(a: nat, b: nat, d: nat, m: nat)
    requires m > 0 && a % m == b % m
    ensures (a + d) % m == (b + d) % m
  {
    if d > 0 {
      ModSame(a, b, d - 1, m);
      ModSucc(a + d - 1, m);
      ModSucc(b + d - 1, m);
    }
  }

  /** Of m numbers in a row only one has a given remainder. */
  lemma ModUnique(a: nat, b: nat, m: nat)
    requires m > 0 && a % m == b % m && b <= a < b + m
    ensures a == b
  {
    var p, q := a / m, b / m;
    assert a == m * p + a % m && b == m * q + b % m;
    assert m * (p - q) == m * p - m * q;
    NoMultiple(m, p - q);
  }

  lemma RoundMod(i: nat, ep: nat, m: nat)
    requires i < m
    ensures (i + ep * m) % m == i
  {
    assert i + ep * m == m * ep + i;
    ModIs(i + ep * m, m, ep, i);
  }

  // ------------------------------------------------------------------ turns

  /** The turns whose bucket has been cleared. */
  ghost function Clears<P>(c: Config, threads: nat, blank: P, es: seq<Event<P>>): nat
    requires Good(c)
  {
    if es == [] then 0
    else
      var before, e := es[..|es| - 1], es[|es| - 1];
      Clears(c, threads, blank, before) + if e.Clear? && Enabled(c, Run(c, threads, blank, before), e) then 1 else 0
  }

  /** How often k has been moved on; what a push that reads k sees. */
  ghost function Bumps<P>(c: Config, threads: nat, blank: P, es: seq<Event<P>>): nat
    requires Good(c)
  {
    if es == [] then 0
    else
      var before, e := es[..|es| - 1], es[|es| - 1];
      Bumps(c, threads, blank, before) + if e.Bump? && Enabled(c, Run(c, threads, blank, before), e) then 1 else 0
  }

  /** The turn that drains round ep of bucket i. */
  function TurnOf(c: Config, i: nat, ep: nat): nat { i + ep * c.m }

  /** The bucket's present round is the one drained by the first turn, not over yet, that is its own. */
  ghost predicate RoundsDue<P>(c: Config, s: State<P>, clears: nat)
    requires Shaped(c, s)
  {
    forall i: nat | i < c.m :: clears <= TurnOf(c, i, s.buckets[i].epoch) < clears + c.m
  }

  ghost predicate Turning<P>(c: Config, s: State<P>, clears: nat, bumps: nat)
    requires Shaped(c, s)
  {
    && s.k % c.m == bumps % c.m && clears == bumps + (if s.drainer.Cleared? then 1 else 0)
    && (s.drainer.Sending? || s.drainer.Leaving? ==> s.drainer.ind == clears % c.m)
    && RoundsDue(c, s, clears)
  }

  lemma AddTurning<P>(c: Config, s: State<P>, p: nat, clears: nat)
    requires Shaped(c, s) && Enabled(c, s, Add(p)) && Shaped(c, AddStep(c, s, p)) && RoundsDue(c, s, clears)
    ensures RoundsDue(c, AddStep(c, s, p), clears)
  {
  }

  lemma SlotTurning<P>(c: Config, s: State<P>, e: Event<P>, clears: nat)
    requires Shaped(c, s) && Enabled(c, s, e) && (e.Write? || e.SendOne?) && Shaped(c, Step(c, s, e))
    requires RoundsDue(c, s, clears)
    ensures RoundsDue(c, Step(c, s, e), clears)
  {
  }

  /** The turn under way drains the round of its bucket that is due with it. */
  lemma DrainsDue<P>(c: Config, s: State<P>, clears: nat, bumps: nat)
    requires Shaped(c, s) && Turning(c, s, clears, bumps) && (s.drainer.Sending? || s.drainer.Leaving?)
    ensures TurnOf(c, s.drainer.ind, s.buckets[s.drainer.ind].epoch) == clears
  {
    var i := s.drainer.ind;
    var ep := s.buckets[i].epoch;
    RoundMod(i, ep, c.m);
    ModUnique(TurnOf(c, i, ep), clears, c.m);
  }

  lemma ClearTurning<P>(c: Config, s: State<P>, clears: nat, bumps: nat)
    requires Shaped(c, s) && Enabled(c, s, Clear) && Shaped(c, ClearStep(s)) && Turning(c, s, clears, bumps)
    ensures Turning(c, ClearStep(s), clears + 1, bumps)
  {
    DrainsDue(c, s, clears, bumps);
    var i := s.drainer.ind;
    var ep := s.buckets[i].epoch;
    assert (ep + 1) * c.m == ep * c.m + c.m;
    forall j: nat | j < c.m
      ensures clears + 1 <= TurnOf(c, j, ClearStep(s).buckets[j].epoch) < clears + 1 + c.m
    {
      if j != i {
        OtherDue(c, s, clears, j);
      }
    }
  }

  lemma OtherDue<P>(c: Config, s: State<P>, clears: nat, j: nat)
    requires Shaped(c, s) && RoundsDue(c, s, clears) && j < c.m && j != clears % c.m
    ensures TurnOf(c, j, s.buckets[j].epoch) != clears
  {
    RoundMod(j, s.buckets[j].epoch, c.m);
  }

  lemma BumpTurning<P>(c: Config, s: State<P>, clears: nat, bumps: nat)
    requires Shaped(c, s) && Enabled(c, s, Bump) && Shaped(c, Step(c, s, Bump)) && Turning(c, s, clears, bumps)
    ensures Turning(c, Step(c, s, Bump), clears, bumps + 1)
  {
    ModSame(s.k, bumps, 1, c.m);
  }

  lemma LockTurning<P>(c: Config, s: State<P>, clears: nat, bumps: nat)
    requires Shaped(c, s) && Enabled(c, s, Lock) && Shaped(c, Step(c, s, Lock)) && Turning(c, s, clears, bumps)
    ensures Turning(c, Step(c, s, Lock), clears, bumps)
  {
  }

  lemma WrapTurning<P>(c: Config, s: State<P>, clears: nat, bumps: nat)
    requires Shaped(c, s) && Enabled(c, s, Wrap) && Shaped(c, Step(c, s, Wrap)) && Turning(c, s, clears, bumps)
    ensures Turning(c, Step(c, s, Wrap), clears, bumps)
  {
    ModIs(s.k % c.m, c.m, 0, s.k % c.m);
  }

  lemma StepTurning<P>(c: Config, s: State<P>, e: Event<P>, clears: nat, bumps: nat)
    requires Shaped(c, s) && Enabled(c, s, e) && Shaped(c, Step(c, s, e)) && Turning(c, s, clears, bumps)
    ensures Turning(c, Step(c, s, e), clears + (if e.Clear? then 1 else 0), bumps + (if e.Bump? then 1 else 0))
  {
    match e
    case Add(p) => AddTurning(c, s, p, clears);
    case Write(p) => SlotTurning(c, s, e, clears);
    case SendOne => SlotTurning(c, s, e, clears);
    case Clear => ClearTurning(c, s, clears, bumps);
    case Bump => BumpTurning(c, s, clears, bumps);
    case Lock => LockTurning(c, s, clears, bumps);
    case Wrap => WrapTurning(c, s, clears, bumps);
    case _ =>
  }

  lemma NextTurning<P>(c: Config, s: State<P>, e: Event<P>, clears: nat, bumps: nat)
    requires Shaped(c, s) && Turning(c, s, clears, bumps)
    ensures Turning(c, Next(c, s, e), clears + (if e.Clear? && Enabled(c, s, e) then 1 else 0),
                    bumps + (if e.Bump? && Enabled(c, s, e) then 1 else 0))
  {
    if Enabled(c, s, e) {
      StepShaped(c, s, e);
      StepTurning(c, s, e, clears, bumps);
    }
  }

  lemma InitialTurning<P>(c: Config, threads: nat, blank: P)
    requires Good(c)
    ensures Turning(c, Initial(c, threads, blank), 0, 0)
  {
  }

  /** In every run turn u drains bucket u mod M, and every bucket's present round is due with its next turn. */
  lemma {:induction false} RunTurning<P>(c: Config, threads: nat, blank: P, es: seq<Event<P>>)
    requires Good(c)
    ensures Turning(c, Run(c, threads, blank, es), Clears(c, threads, blank, es), Bumps(c, threads, blank, es))
  {
    if es == [] {
      InitialTurning(c, threads, blank);
    } else {
      var before := es[..|es| - 1];
      RunTurning(c, threads, blank, before);
      NextTurning(c, Run(c, threads, blank, before), es[|es| - 1], Clears(c, threads, blank, before),
                  Bumps(c, threads, blank, before));
    }
  }

  // ------------------------------------------------------------------ where a push goes

  /** What thread p was last called to push and its offset, the offsets it found full, and what it last read of k. */
  datatype Tries<P> = Tries(pkt: P, first: nat, full: seq<nat>, read: nat)

  ghost function TriesAfter<P>(c: Config, s: State<P>, e: Event<P>, p: nat, t: Tries<P>, bumps: nat): Tries<P>
    requires Shaped(c, s)
  {
    if !Enabled(c, s, e) then t
    else if e.Begin? && e.p == p then Tries(e.pkt, e.num, [], t.read)
    else if e == Choose(p) then t.(read := bumps)
    else if e == Add(p) && s.buckets[s.pushers[p].ind].count >= c.n then t.(full := t.full + [s.pushers[p].num])
    else t
  }

  ghost function TriesOf<P>(c: Config, threads: nat, blank: P, es: seq<Event<P>>, p: nat): Tries<P>
    requires Good(c)
  {
    if es == [] then Tries(blank, 0, [], 0)
    else
      var before := es[..|es| - 1];
      TriesAfter(c, Run(c, threads, blank, before), es[|es| - 1], p, TriesOf(c, threads, blank, before, p),
                 Bumps(c, threads, blank, before))
  }

  /** A push keeps its packet, tries its own offset and the next ones in turn, and takes bucket k + num as it read k. */
  ghost predicate OnCourse<P>(c: Config, q: Pusher<P>, t: Tries<P>)
    requires Good(c)
  {
    && (!q.Idle? ==> q.pkt == t.pkt)
    && (q.Choosing? || q.Adding? ==> q.num == t.first + |t.full|)
    && (q.Choosing? || q.Adding? ==> forall x | 0 <= x < |t.full| :: t.full[x] == t.first + x)
    && (q.Adding? ==> q.ind == (t.read + q.num) % c.m)
  }

  lemma StepOnCourse<P>(c: Config, s: State<P>, e: Event<P>, p: nat, t: Tries<P>, bumps: nat)
    requires Shaped(c, s) && Enabled(c, s, e) && Shaped(c, Step(c, s, e)) && p < |s.pushers|
    requires OnCourse(c, s.pushers[p], t) && s.k % c.m == bumps % c.m
    ensures |Step(c, s, e).pushers| == |s.pushers|
    ensures OnCourse(c, Step(c, s, e).pushers[p], TriesAfter(c, s, e, p, t, bumps))
  {
    if e == Choose(p) {
      ModSame(s.k, bumps, s.pushers[p].num, c.m);
    }
  }

  /** In every run what a push under way holds is what it was called with. */
  lemma {:induction false} RunOnCourse<P>(c: Config, threads: nat, blank: P, es: seq<Event<P>>, p: nat)
    requires Good(c) && p < threads
    ensures |Run(c, threads, blank, es).pushers| == threads
    ensures OnCourse(c, Run(c, threads, blank, es).pushers[p], TriesOf(c, threads, blank, es, p))
  {
    if es != [] {
      var before, e := es[..|es| - 1], es[|es| - 1];
      var s := Run(c, threads, blank, before);
      RunOnCourse(c, threads, blank, before, p);
      RunTurning(c, threads, blank, before);
      if Enabled(c, s, e) {
        StepShaped(c, s, e);
        StepOnCourse(c, s, e, p, TriesOf(c, threads, blank, before, p), Bumps(c, threads, blank, before));
      }
    }
  }

  /** Where the fetch_add of this push goes, when the round of its bucket is ep and that many turns are over. */
  ghost predicate Placed<P>(c: Config, q: Pusher<P>, ep: nat, t: Tries<P>, clears: nat)
    requires Good(c) && q.Adding?
  {
    var turn := TurnOf(c, q.ind, ep);
    && q.pkt == t.pkt && q.num == t.first + |t.full| && (forall x | 0 <= x < |t.full| :: t.full[x] == t.first + x)
    && turn % c.m == q.ind == (t.read + q.num) % c.m && clears <= turn < clears + c.m
    && (clears <= t.read + q.num < clears + c.m ==> turn == t.read + q.num)
  }

  lemma PlacedHere<P>(c: Config, q: Pusher<P>, ep: nat, t: Tries<P>, clears: nat)
    requires Good(c) && q.Adding? && q.ind < c.m && OnCourse(c, q, t)
    requires clears <= TurnOf(c, q.ind, ep) < clears + c.m
    ensures Placed(c, q, ep, t, clears)
  {
    RoundMod(q.ind, ep, c.m);
    if clears <= t.read + q.num < clears + c.m {
      SameTurn(TurnOf(c, q.ind, ep), t.read + q.num, clears, c.m);
    }
  }

  /**
   * In every run a push of offset first has found the offsets before its present one full, each at its fetch_add, and
   * goes to the bucket num turns after the one whose k it read. The round it joins is drained by the first turn of that
   * bucket that is not over: turn read + num itself, when that is one of the next M turns.
   */
  lemma PushPlaced<P>(c: Config, threads: nat, blank: P, es: seq<Event<P>>, p: nat)
    requires Good(c) && p < threads && Enabled(c, Run(c, threads, blank, es), Add(p))
    ensures var s := Run(c, threads, blank, es);
            Placed(c, s.pushers[p], s.buckets[s.pushers[p].ind].epoch, TriesOf(c, threads, blank, es, p),
                   Clears(c, threads, blank, es))
  {
    var s := Run(c, threads, blank, es);
    RunOnCourse(c, threads, blank, es, p);
    RunTurning(c, threads, blank, es);
    PlacedHere(c, s.pushers[p], s.buckets[s.pushers[p].ind].epoch, TriesOf(c, threads, blank, es, p),
               Clears(c, threads, blank, es));
  }

  lemma SameTurn(a: nat, b: nat, low: nat, m: nat)
    requires m > 0 && a % m == b % m && low <= a < low + m && low <= b < low + m
    ensures a == b
  {
    if a >= b {
      ModUnique(a, b, m);
    } else {
      ModUnique(b, a, m);
    }
  }

  /** What the drainer sends in turn u is of the round that turn u drains. */
  lemma SendsInTurn<P>(c: Config, threads: nat, blank: P, es: seq<Event<P>>)
    requires Good(c) && Enabled(c, Run(c, threads, blank, es), SendOne)
    ensures var s := Run(c, threads, blank, es);
            TurnOf(c, s.drainer.ind, s.buckets[s.drainer.ind].epoch) == Clears(c, threads, blank, es)
  {
    RunTurning(c, threads, blank, es);
    DrainsDue(c, Run(c, threads, blank, es), Clears(c, threads, blank, es), Bumps(c, threads, blank, es));
  }
}
