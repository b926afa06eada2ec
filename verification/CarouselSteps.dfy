// Karusel_Buffer of cpp/stuff.hpp as a step system: any number of pushing threads beside the draining thread,
// with every atomic access a step of its own. A push reads k, adds to packet_count, and later writes under the
// bucket's mutex; a drain takes the mutex, sends slot by slot, clears the counter, and bumps k in two steps.
module CarouselSteps {
  import opened Bags
  import opened Basics

  datatype Config = Config(m: nat, n: nat)

  /** History of a slot since its bucket was last cleared; it has no influence on the steps. */
  datatype Tag = Free | Reserved(owner: nat) | Filled | Gone

  datatype Bucket<P> = Bucket(count: nat, packets: seq<P>, tags: seq<Tag>, epoch: nat)

  datatype Pusher<P> =
    | Idle
    | Choosing(num: nat, pkt: P)              // about to read k
    | Adding(num: nat, ind: nat, pkt: P)      // about to fetch_add
    | Writing(ind: nat, slot: nat, pkt: P)    // about to write under the mutex

  /** In every state but Top the drainer holds the mutex of its bucket. */
  datatype Drainer = Top | Sending(ind: nat, i: nat) | Leaving(ind: nat) | Cleared(ind: nat) | Bumped(ind: nat)

  /** A slot index handed out by fetch_add. */
  datatype Grant = Grant(ind: nat, epoch: nat, slot: nat)

  datatype State<P> = State(k: nat, buckets: seq<Bucket<P>>, pushers: seq<Pusher<P>>, drainer: Drainer,
                            accepted: seq<P>, sent: seq<P>, grants: seq<Grant>)

  datatype Event<P> =
    | Begin(p: nat, num: nat, pkt: P) | Choose(p: nat) | Add(p: nat) | Write(p: nat)
    | Lock | SendOne | Leave | Clear | Bump | Wrap

  predicate Good(c: Config) { c.m >= 2 && c.n >= 1 }

  function Initial<P>(c: Config, threads: nat, blank: P): State<P> {
    State(0, seq(c.m, _ => Bucket(0, seq(c.n, _ => blank), seq(c.n, _ => Free), 0)),
          seq(threads, _ => Idle), Top, [], [], [])
  }

  // ------------------------------------------------------------------ steps

  function SetPusher<P>(s: State<P>, p: nat, q: Pusher<P>): State<P>
    requires p < |s.pushers|
  {
    s.(pushers := s.pushers[p := q])
  }

  function SetBucket<P>(s: State<P>, i: nat, b: Bucket<P>): State<P>
    requires i < |s.buckets|
  {
    s.(buckets := s.buckets[i := b])
  }

  /** fetch_add on the chosen bucket, then the test of the spill loop. */
  function AddStep<P>(c: Config, s: State<P>, p: nat): State<P>
    requires p < |s.pushers| && s.pushers[p].Adding? && s.pushers[p].ind < |s.buckets|
    requires |s.buckets[s.pushers[p].ind].tags| == c.n
  {
    var q := s.pushers[p];
    var b := s.buckets[q.ind];
    if b.count < c.n then
      SetPusher(SetBucket(s, q.ind, b.(count := b.count + 1, tags := b.tags[b.count := Reserved(p)])), p,
                Writing(q.ind, b.count, q.pkt))
      .(grants := s.grants + [Grant(q.ind, b.epoch, b.count)])
    else
      SetPusher(SetBucket(s, q.ind, b.(count := b.count + 1)), p,
                if q.num < c.m then Choosing(q.num + 1, q.pkt) else Idle)
  }

  function WriteStep<P>(s: State<P>, p: nat): State<P>
    requires p < |s.pushers| && s.pushers[p].Writing? && s.pushers[p].ind < |s.buckets|
    requires var b := s.buckets[s.pushers[p].ind]; s.pushers[p].slot < |b.packets| == |b.tags|
  {
    var q := s.pushers[p];
    var b := s.buckets[q.ind];
    var tags := if b.tags[q.slot] == Reserved(p) then b.tags[q.slot := Filled] else b.tags;
    SetPusher(SetBucket(s, q.ind, b.(packets := b.packets[q.slot := q.pkt], tags := tags)), p, Idle)
    .(accepted := s.accepted + [q.pkt])
  }

  function SendStep<P>(s: State<P>): State<P>
    requires s.drainer.Sending? && s.drainer.ind < |s.buckets|
    requires var b := s.buckets[s.drainer.ind]; s.drainer.i < |b.packets| == |b.tags|
  {
    var ind, i := s.drainer.ind, s.drainer.i;
    var b := s.buckets[ind];
    SetBucket(s, ind, b.(tags := b.tags[i := Gone])).(drainer := Sending(ind, i + 1), sent := s.sent + [b.packets[i]])
  }

  function ClearStep<P>(s: State<P>): State<P>
    requires s.drainer.Leaving? && s.drainer.ind < |s.buckets|
  {
    var ind := s.drainer.ind;
    var b := s.buckets[ind];
    SetBucket(s, ind, Bucket(0, b.packets, seq(|b.tags|, _ => Free), b.epoch + 1)).(drainer := Cleared(ind))
  }

  predicate ShapedPusher<P>(c: Config, q: Pusher<P>) {
    && (q.Choosing? ==> 1 <= q.num <= c.m)
    && (q.Adding? ==> 1 <= q.num <= c.m && q.ind < c.m)
    && (q.Writing? ==> q.ind < c.m && q.slot < c.n)
  }

  ghost predicate Shaped<P>(c: Config, s: State<P>) {
    && Good(c) && |s.buckets| == c.m && (if s.drainer.Bumped? then s.k <= c.m else s.k < c.m)
    && (forall i | 0 <= i < c.m :: |s.buckets[i].packets| == |s.buckets[i].tags| == c.n)
    && (forall p | 0 <= p < |s.pushers| :: ShapedPusher(c, s.pushers[p]))
    && (!s.drainer.Top? ==> s.drainer.ind < c.m)
  }

  /** Which steps the code can take here. */
  ghost predicate Enabled<P>(c: Config, s: State<P>, e: Event<P>)
    requires Shaped(c, s)
  {
    match e
    case Begin(p, num, _) => p < |s.pushers| && s.pushers[p].Idle? && 1 <= num <= c.m - 1
    case Choose(p) => p < |s.pushers| && s.pushers[p].Choosing?
    case Add(p) => p < |s.pushers| && s.pushers[p].Adding?
    case Write(p) => p < |s.pushers| && s.pushers[p].Writing? && (s.drainer.Top? || s.drainer.ind != s.pushers[p].ind)
    case Lock => s.drainer.Top?
    case SendOne => s.drainer.Sending? && s.drainer.i < Min(s.buckets[s.drainer.ind].count, c.n)
    case Leave => s.drainer.Sending? && s.drainer.i >= Min(s.buckets[s.drainer.ind].count, c.n)
    case Clear => s.drainer.Leaving?
    case Bump => s.drainer.Cleared?
    case Wrap => s.drainer.Bumped?
  }

  ghost function Step<P>(c: Config, s: State<P>, e: Event<P>): State<P>
    requires Shaped(c, s) && Enabled(c, s, e)
  {
    match e
    case Begin(p, num, pkt) => SetPusher(s, p, Choosing(num, pkt))
    case Choose(p) => SetPusher(s, p, Adding(s.pushers[p].num, (s.k + s.pushers[p].num) % c.m, s.pushers[p].pkt))
    case Add(p) => AddStep(c, s, p)
    case Write(p) => WriteStep(s, p)
    case Lock => s.(drainer := Sending(s.k % c.m, 0))
    case SendOne => SendStep(s)
    case Leave => s.(drainer := Leaving(s.drainer.ind))
    case Clear => ClearStep(s)
    case Bump => s.(k := s.k + 1, drainer := Bumped(s.drainer.ind))
    case Wrap => s.(k := s.k % c.m, drainer := Top)
  }

  // ------------------------------------------------------------------ slots are handed out once

  /** The slots handed out since the last clear are the first min(packet_count, N). */
  ghost predicate Counted<P>(c: Config, s: State<P>)
    requires Shaped(c, s)
  {
    forall i, x | 0 <= i < c.m && 0 <= x < c.n :: s.buckets[i].tags[x] == Free <==> x >= s.buckets[i].count
  }

  ghost predicate GrantedBefore<P>(c: Config, s: State<P>, g: Grant)
    requires Shaped(c, s)
  {
    && g.ind < c.m && g.slot < c.n
    && (g.epoch < s.buckets[g.ind].epoch || (g.epoch == s.buckets[g.ind].epoch && g.slot < s.buckets[g.ind].count))
  }

  ghost predicate GrantsDistinct<P>(c: Config, s: State<P>)
    requires Shaped(c, s)
  {
    && (forall a | 0 <= a < |s.grants| :: GrantedBefore(c, s, s.grants[a]))
    && (forall a, b | 0 <= a < b < |s.grants| :: s.grants[a] != s.grants[b])
  }

  ghost predicate Sound<P>(c: Config, s: State<P>) {
    Shaped(c, s) && Counted(c, s) && GrantsDistinct(c, s)
  }

  lemma StepShaped<P>(c: Config, s: State<P>, e: Event<P>)
    requires Shaped(c, s) && Enabled(c, s, e)
    ensures Shaped(c, Step(c, s, e))
  {
  }

  lemma StepCounted<P>(c: Config, s: State<P>, e: Event<P>)
    requires Shaped(c, s) && Counted(c, s) && Enabled(c, s, e) && Shaped(c, Step(c, s, e))
    ensures Counted(c, Step(c, s, e))
  {
  }

  lemma StepGrants<P>(c: Config, s: State<P>, e: Event<P>)
    requires Sound(c, s) && Enabled(c, s, e) && Shaped(c, Step(c, s, e))
    ensures GrantsDistinct(c, Step(c, s, e))
  {
    var t := Step(c, s, e);
    forall a | 0 <= a < |t.grants|
      ensures GrantedBefore(c, t, t.grants[a])
    {
      if a < |s.grants| {
        assert GrantedBefore(c, s, s.grants[a]);
      }
    }
  }

  // ------------------------------------------------------------------ what waits in the wheel

  function Held<P>(tag: Tag, p: P): multiset<P> {
    if tag == Filled then multiset{p} else multiset{}
  }

  /** Slot by slot, the packets written and not yet sent. */
  function Slots<P>(b: Bucket<P>): (ms: seq<multiset<P>>)
    requires |b.packets| == |b.tags|
    ensures |ms| == |b.tags| && forall x | 0 <= x < |ms| :: ms[x] == Held(b.tags[x], b.packets[x])
  {
    seq(|b.tags|, x requires 0 <= x < |b.tags| => Held(b.tags[x], b.packets[x]))
  }

  function StoredIn<P>(b: Bucket<P>): multiset<P>
    requires |b.packets| == |b.tags|
  {
    Total(Slots(b))
  }

  ghost function Stores<P>(c: Config, s: State<P>): (ms: seq<multiset<P>>)
    requires Shaped(c, s)
    ensures |ms| == c.m && forall i | 0 <= i < c.m :: ms[i] == StoredIn(s.buckets[i])
  {
    seq(c.m, i requires 0 <= i < c.m => StoredIn(s.buckets[i]))
  }

  ghost function Waiting<P>(c: Config, s: State<P>): multiset<P>
    requires Shaped(c, s)
  {
    Total(Stores(c, s))
  }

  /** Everything push accepted has been sent or still waits, each packet as often as it was accepted. */
  ghost predicate Balanced<P>(c: Config, s: State<P>)
    requires Shaped(c, s)
  {
    multiset(s.accepted) == multiset(s.sent) + Waiting(c, s)
  }

  // ------------------------------------------------------------------ exactly which steps lose or repeat a packet

  /** Sending a slot that is written, clearing a bucket with nothing left, writing to a slot still one's own. */
  ghost predicate Safe<P>(c: Config, s: State<P>, e: Event<P>)
    requires Shaped(c, s) && Enabled(c, s, e)
  {
    match e
    case SendOne => s.buckets[s.drainer.ind].tags[s.drainer.i] == Filled
    case Clear => forall x | 0 <= x < c.n :: s.buckets[s.drainer.ind].tags[x] != Filled
    case Write(p) => s.buckets[s.pushers[p].ind].tags[s.pushers[p].slot] == Reserved(p)
    case _ => true
  }

  lemma NothingStored<P>(b: Bucket<P>)
    requires |b.packets| == |b.tags|
    ensures StoredIn(b) == multiset{} <==> forall x | 0 <= x < |b.tags| :: b.tags[x] != Filled
  {
    TotalNone(Slots(b));
    assert forall x | 0 <= x < |b.tags| :: Slots(b)[x] == multiset{} <==> b.tags[x] != Filled;
  }

  /** How the waiting packets change when one bucket does. */
  lemma WaitingUpdate<P>(c: Config, s: State<P>, i: nat, b: Bucket<P>, t: State<P>)
    requires Shaped(c, s) && Shaped(c, t) && i < c.m && |b.packets| == |b.tags| && t.buckets == s.buckets[i := b]
    ensures Waiting(c, t) + StoredIn(s.buckets[i]) == Waiting(c, s) + StoredIn(b)
  {
    assert Stores(c, t) == Stores(c, s)[i := StoredIn(b)];
    TotalUpdate(Stores(c, s), i, StoredIn(b));
  }

  lemma AddBalance<P>(c: Config, s: State<P>, p: nat)
    requires Sound(c, s) && Enabled(c, s, Add(p)) && Shaped(c, AddStep(c, s, p))
    ensures Waiting(c, AddStep(c, s, p)) == Waiting(c, s)
  {
    var ind := s.pushers[p].ind;
    var t := AddStep(c, s, p);
    WaitingUpdate(c, s, ind, t.buckets[ind], t);
    ReservedStoresNothing(s.buckets[ind], t.buckets[ind], p);
    Cancel(Waiting(c, t), Waiting(c, s), StoredIn(s.buckets[ind]));
  }

  lemma ReservedStoresNothing<P>(b: Bucket<P>, b': Bucket<P>, p: nat)
    requires |b.packets| == |b.tags| && b'.packets == b.packets
    requires if b.count < |b.tags| then b.tags[b.count] == Free && b'.tags == b.tags[b.count := Reserved(p)]
             else b'.tags == b.tags
    ensures StoredIn(b') == StoredIn(b)
  {
    assert Slots(b') == Slots(b);
  }

  /** One slot of one bucket changes: the waiting packets lose its old content and gain its new one. */
  lemma SlotUpdate<P>(c: Config, s: State<P>, t: State<P>, ind: nat, x: nat, p: P, tag: Tag)
    requires Shaped(c, s) && Shaped(c, t) && ind < c.m && x < c.n
    requires var b := s.buckets[ind];
             t.buckets == s.buckets[ind := b.(packets := b.packets[x := p], tags := b.tags[x := tag])]
    ensures Waiting(c, t) + Held(s.buckets[ind].tags[x], s.buckets[ind].packets[x]) == Waiting(c, s) + Held(tag, p)
  {
    var b := s.buckets[ind];
    var b' := b.(packets := b.packets[x := p], tags := b.tags[x := tag]);
    WaitingUpdate(c, s, ind, b', t);
    assert Slots(b') == Slots(b)[x := Held(tag, p)];
    TotalUpdate(Slots(b), x, Held(tag, p));
    Exchange(Waiting(c, t), Waiting(c, s), StoredIn(b), StoredIn(b'), Held(b.tags[x], b.packets[x]), Held(tag, p));
  }

  lemma SendBalance<P>(c: Config, s: State<P>)
    requires Sound(c, s) && Enabled(c, s, SendOne) && Shaped(c, SendStep(s))
    ensures var b, i := s.buckets[s.drainer.ind], s.drainer.i;
            Waiting(c, SendStep(s)) + Held(b.tags[i], b.packets[i]) == Waiting(c, s)
  {
    var ind, i := s.drainer.ind, s.drainer.i;
    var b := s.buckets[ind];
    assert b.packets[i := b.packets[i]] == b.packets;
    SlotUpdate(c, s, SendStep(s), ind, i, b.packets[i], Gone);
  }

  lemma ClearBalance<P>(c: Config, s: State<P>)
    requires Sound(c, s) && Enabled(c, s, Clear) && Shaped(c, ClearStep(s))
    ensures Waiting(c, ClearStep(s)) + StoredIn(s.buckets[s.drainer.ind]) == Waiting(c, s)
  {
    var ind := s.drainer.ind;
    var t := ClearStep(s);
    WaitingUpdate(c, s, ind, t.buckets[ind], t);
    NothingStored(t.buckets[ind]);
  }

  lemma WriteBalance<P>(c: Config, s: State<P>, p: nat)
    requires Sound(c, s) && Enabled(c, s, Write(p)) && Shaped(c, WriteStep(s, p))
    ensures var q := s.pushers[p];
            var b := s.buckets[q.ind];
            var tag := if b.tags[q.slot] == Reserved(p) then Filled else b.tags[q.slot];
            Waiting(c, WriteStep(s, p)) + Held(b.tags[q.slot], b.packets[q.slot]) == Waiting(c, s) + Held(tag, q.pkt)
  {
    var q := s.pushers[p];
    var b := s.buckets[q.ind];
    var tag := if b.tags[q.slot] == Reserved(p) then Filled else b.tags[q.slot];
    assert b.tags[q.slot := b.tags[q.slot]] == b.tags;
    SlotUpdate(c, s, WriteStep(s, p), q.ind, q.slot, q.pkt, tag);
  }

  lemma SameBuckets<P>(c: Config, s: State<P>, t: State<P>)
    requires Shaped(c, s) && Shaped(c, t) && s.buckets == t.buckets && s.accepted == t.accepted && s.sent == t.sent
    ensures Balanced(c, s) <==> Balanced(c, t)
  {
  }

  lemma SendExactly<P>(c: Config, s: State<P>)
    requires Sound(c, s) && Enabled(c, s, SendOne) && Balanced(c, s) && Shaped(c, SendStep(s))
    ensures Balanced(c, SendStep(s)) <==> s.buckets[s.drainer.ind].tags[s.drainer.i] == Filled
  {
    var b, i, t := s.buckets[s.drainer.ind], s.drainer.i, SendStep(s);
    SendBalance(c, s);
    assert multiset(t.sent) == multiset(s.sent) + multiset{b.packets[i]};
    if b.tags[i] == Filled {
      Compare(multiset(s.accepted), multiset(s.sent), Waiting(c, s), Waiting(c, t), multiset{b.packets[i]}, multiset{});
      assert multiset(s.accepted) + multiset{} == multiset(s.accepted);
    } else {
      assert Waiting(c, t) + multiset{} == Waiting(c, t);
      assert |multiset(t.sent) + Waiting(c, t)| == |multiset(s.accepted)| + 1;
    }
  }

  lemma ClearExactly<P>(c: Config, s: State<P>)
    requires Sound(c, s) && Enabled(c, s, Clear) && Balanced(c, s) && Shaped(c, ClearStep(s))
    ensures Balanced(c, ClearStep(s)) <==> forall x | 0 <= x < c.n :: s.buckets[s.drainer.ind].tags[x] != Filled
  {
    var b, t := s.buckets[s.drainer.ind], ClearStep(s);
    ClearBalance(c, s);
    NothingStored(b);
    if StoredIn(b) == multiset{} {
      assert Waiting(c, t) + multiset{} == Waiting(c, t);
    } else {
      assert |multiset(t.sent) + Waiting(c, t)| + |StoredIn(b)| == |multiset(s.accepted)|;
    }
  }

  lemma WriteExactly<P>(c: Config, s: State<P>, p: nat)
    requires Sound(c, s) && Enabled(c, s, Write(p)) && Balanced(c, s) && Shaped(c, WriteStep(s, p))
    ensures Balanced(c, WriteStep(s, p)) <==> s.buckets[s.pushers[p].ind].tags[s.pushers[p].slot] == Reserved(p)
  {
    var q, t := s.pushers[p], WriteStep(s, p);
    var b := s.buckets[q.ind];
    WriteBalance(c, s, p);
    assert multiset(t.accepted) == multiset(s.accepted) + multiset{q.pkt};
    if b.tags[q.slot] == Reserved(p) {
      Compare(multiset(s.accepted), multiset(s.sent), Waiting(c, s), Waiting(c, t), multiset{}, multiset{q.pkt});
      assert multiset(s.sent) + multiset{} == multiset(s.sent);
    } else {
      var tag := b.tags[q.slot];
      SameSize(Waiting(c, t), Waiting(c, s), Held(tag, b.packets[q.slot]), Held(tag, q.pkt));
      assert |multiset(t.sent) + Waiting(c, t)| + 1 == |multiset(t.accepted)|;
    }
  }

  /** From a balanced state a step keeps the balance exactly when it is safe. */
  lemma SafeExactly<P>(c: Config, s: State<P>, e: Event<P>)
    requires Sound(c, s) && Enabled(c, s, e) && Balanced(c, s)
    ensures Shaped(c, Step(c, s, e))
    ensures Balanced(c, Step(c, s, e)) <==> Safe(c, s, e)
  {
    StepShaped(c, s, e);
    match e
    case Add(p) => AddBalance(c, s, p);
    case SendOne => SendExactly(c, s);
    case Clear => ClearExactly(c, s);
    case Write(p) => WriteExactly(c, s, p);
    case _ => SameBuckets(c, s, Step(c, s, e));
  }

  // ------------------------------------------------------------------ runs

  /** A step that is not enabled leaves the state as it is. */
  ghost function Next<P>(c: Config, s: State<P>, e: Event<P>): (t: State<P>)
    requires Shaped(c, s)
    ensures Shaped(c, t)
  {
    if Enabled(c, s, e) then StepShaped(c, s, e); Step(c, s, e) else s
  }

  ghost function Run<P>(c: Config, threads: nat, blank: P, es: seq<Event<P>>): (s: State<P>)
    requires Good(c)
    ensures Shaped(c, s)
  {
    if es == [] then Initial(c, threads, blank) else Next(c, Run(c, threads, blank, es[..|es| - 1]), es[|es| - 1])
  }

  lemma NextSound<P>(c: Config, s: State<P>, e: Event<P>)
    requires Sound(c, s)
    ensures Sound(c, Next(c, s, e))
  {
    if Enabled(c, s, e) {
      StepShaped(c, s, e);
      StepCounted(c, s, e);
      StepGrants(c, s, e);
    }
  }

  /** In every run no slot index is handed out twice between two clears of its bucket, and none is N or more. */
  lemma {:induction false} SlotsHandedOutOnce<P>(c: Config, threads: nat, blank: P, es: seq<Event<P>>)
    requires Good(c)
    ensures Sound(c, Run(c, threads, blank, es))
    ensures var grants := Run(c, threads, blank, es).grants;
            && (forall a | 0 <= a < |grants| :: grants[a].slot < c.n)
            && (forall a, b | 0 <= a < b < |grants| :: grants[a] != grants[b])
  {
    if es != [] {
      SlotsHandedOutOnce(c, threads, blank, es[..|es| - 1]);
      NextSound(c, Run(c, threads, blank, es[..|es| - 1]), es[|es| - 1]);
    }
    var s := Run(c, threads, blank, es);
    forall a | 0 <= a < |s.grants|
      ensures s.grants[a].slot < c.n
    {
      assert GrantedBefore(c, s, s.grants[a]);
    }
  }
}
