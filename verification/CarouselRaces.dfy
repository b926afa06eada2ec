// Two runs of the fine-grained carousel in which a push overlaps the drain of its bucket.
module CarouselRaces {
  import opened CarouselSteps

  const TINY := Config(2, 1)

  lemma Take(es: seq<Event<nat>>, s: State<nat>, e: Event<nat>, t: State<nat>)
    requires Run(TINY, 1, 0, es) == s && Enabled(TINY, s, e) && Step(TINY, s, e) == t
    ensures Run(TINY, 1, 0, es + [e]) == t
  {
    assert (es + [e])[..|es|] == es;
  }

  /** One idle turn of the drainer over bucket k, with the only pusher where it is. */
  lemma IdleTurn(es: seq<Event<nat>>, s: State<nat>) returns (fs: seq<Event<nat>>)
    requires Run(TINY, 1, 0, es) == s && s.drainer == Top && s.k < 2 && s.buckets[s.k].count == 0
    ensures var b := s.buckets[s.k];
            Run(TINY, 1, 0, fs) == s.(k := (s.k + 1) % 2,
                                      buckets := s.buckets[s.k := Bucket(0, b.packets, [Free], b.epoch + 1)])
  {
    var ind := s.k;
    var s1 := s.(drainer := Sending(ind, 0));
    Take(es, s, Lock, s1);
    var s2 := s.(drainer := Leaving(ind));
    Take(es + [Lock], s1, Leave, s2);
    fs := FinishTurn(es + [Lock] + [Leave], s2);
  }

  lemma FinishTurn(es: seq<Event<nat>>, s: State<nat>) returns (fs: seq<Event<nat>>)
    requires Run(TINY, 1, 0, es) == s && s.drainer.Leaving? && s.drainer.ind == s.k < 2
    ensures var b := s.buckets[s.k];
            Run(TINY, 1, 0, fs) == s.(k := (s.k + 1) % 2, drainer := Top,
                                      buckets := s.buckets[s.k := Bucket(0, b.packets, [Free], b.epoch + 1)])
  {
    var ind := s.k;
    var b := s.buckets[ind];
    assert Shaped(TINY, s);
    assert seq(|b.tags|, _ => Free) == [Free];
    var s3 := s.(drainer := Cleared(ind), buckets := s.buckets[ind := Bucket(0, b.packets, [Free], b.epoch + 1)]);
    Take(es, s, Clear, s3);
    var s4 := s3.(k := ind + 1, drainer := Bumped(ind));
    Take(es + [Clear], s3, Bump, s4);
    var s5 := s4.(k := (ind + 1) % 2, drainer := Top);
    Take(es + [Clear] + [Bump], s4, Wrap, s5);
    fs := es + [Clear] + [Bump] + [Wrap];
  }

  /** The pusher takes slot 0 of an empty bucket 1 while the current bucket is 0. */
  lemma TakeSlot(es: seq<Event<nat>>, s: State<nat>, pkt: nat) returns (fs: seq<Event<nat>>)
    requires Run(TINY, 1, 0, es) == s && s.drainer == Top && s.k == 0 && s.pushers == [Idle] && s.buckets[1].count == 0
    ensures var b := s.buckets[1];
            Run(TINY, 1, 0, fs) == s.(pushers := [Writing(1, 0, pkt)], grants := s.grants + [Grant(1, b.epoch, 0)],
                                      buckets := s.buckets[1 := b.(count := 1, tags := [Reserved(0)])])
  {
    var s1 := s.(pushers := [Choosing(1, pkt)]);
    Take(es, s, Begin(0, 1, pkt), s1);
    var s2 := s.(pushers := [Adding(1, 1, pkt)]);
    Take(es + [Begin(0, 1, pkt)], s1, Choose(0), s2);
    var b := s.buckets[1];
    assert b.tags[0 := Reserved(0)] == [Reserved(0)];
    Take(es + [Begin(0, 1, pkt)] + [Choose(0)], s2, Add(0), AddStep(TINY, s2, 0));
    fs := es + [Begin(0, 1, pkt)] + [Choose(0)] + [Add(0)];
  }

  /** Sending slot 0 of bucket 1, whatever it holds. */
  lemma SendSlot(es: seq<Event<nat>>, s: State<nat>) returns (fs: seq<Event<nat>>)
    requires Run(TINY, 1, 0, es) == s && s.drainer == Top && s.k == 1 && s.buckets[1].count == 1
    ensures var b := s.buckets[1];
            Run(TINY, 1, 0, fs) == s.(drainer := Sending(1, 1), sent := s.sent + [b.packets[0]],
                                      buckets := s.buckets[1 := b.(tags := [Gone])])
  {
    var s1 := s.(drainer := Sending(1, 0));
    Take(es, s, Lock, s1);
    assert s.buckets[1].tags[0 := Gone] == [Gone];
    Take(es + [Lock], s1, SendOne, SendStep(s1));
    fs := es + [Lock] + [SendOne];
  }

  lemma WriteSlot(es: seq<Event<nat>>, s: State<nat>) returns (fs: seq<Event<nat>>)
    requires Run(TINY, 1, 0, es) == s && s.drainer == Top && |s.pushers| == 1 && s.pushers[0].Writing?
    requires s.pushers[0].ind == 1 && s.pushers[0].slot == 0 && s.buckets[1].tags == [Reserved(0)]
    ensures var q, b := s.pushers[0], s.buckets[1];
            Run(TINY, 1, 0, fs) == s.(pushers := [Idle], accepted := s.accepted + [q.pkt],
                                      buckets := s.buckets[1 := b.(packets := [q.pkt], tags := [Filled])])
  {
    var q, b := s.pushers[0], s.buckets[1];
    assert Shaped(TINY, s);
    assert b.packets[0 := q.pkt] == [q.pkt] && b.tags[0 := Filled] == [Filled] && s.pushers[0 := Idle] == [Idle];
    Take(es, s, Write(0), WriteStep(s, 0));
    fs := es + [Write(0)];
  }

  lemma InitialTiny()
    ensures Run<nat>(TINY, 1, 0, [])
            == State(0, [Bucket(0, [0], [Free], 0), Bucket(0, [0], [Free], 0)], [Idle], Top, [], [], [])
  {
    assert seq<nat>(1, _ => 0) == [0];
    assert seq<Tag>(1, _ => Free) == [Free];
    assert seq<Pusher<nat>>(1, _ => Idle) == [Idle];
    var b := Bucket(0, [0], [Free], 0);
    var s := Initial<nat>(TINY, 1, 0);
    assert s.buckets[0] == b && s.buckets[1] == b;
    assert s.buckets == [b, b];
  }

  /**
   * A slot taken after the drainer left its send loop and before it cleared the counter: push reports success,
   * nothing is ever sent, and no bucket counts the packet.
   */
  lemma PacketLost() returns (es: seq<Event<nat>>)
    ensures var s := Run(TINY, 1, 0, es);
            s.accepted == [7] && s.sent == [] && s.pushers == [Idle] && forall b | b in s.buckets :: b.count == 0
  {
    InitialTiny();
    var s0 := Run<nat>(TINY, 1, 0, []);
    var s1 := s0.(pushers := [Choosing(1, 7)]);
    Take([], s0, Begin(0, 1, 7), s1);
    var s2 := s0.(pushers := [Adding(1, 1, 7)]);
    Take([] + [Begin(0, 1, 7)], s1, Choose(0), s2);
    es := IdleTurn([] + [Begin(0, 1, 7)] + [Choose(0)], s2);
    var s3 := s2.(k := 1, buckets := [Bucket(0, [0], [Free], 1), Bucket(0, [0], [Free], 0)]);
    assert Run(TINY, 1, 0, es) == s3;
    Take(es, s3, Lock, s3.(drainer := Sending(1, 0)));
    var s4 := s3.(drainer := Leaving(1));
    Take(es + [Lock], s3.(drainer := Sending(1, 0)), Leave, s4);
    es := es + [Lock] + [Leave];
    var s5 := AddStep(TINY, s4, 0);
    Take(es, s4, Add(0), s5);
    es := FinishTurn(es + [Add(0)], s5);
    var s6 := Run(TINY, 1, 0, es);
    assert s6.buckets == [Bucket(0, [0], [Free], 1), Bucket(0, [0], [Free], 1)] && s6.pushers == [Writing(1, 0, 7)];
    Take(es, s6, Write(0), WriteStep(s6, 0));
    es := es + [Write(0)];
  }

  lemma OnceWritten() returns (es: seq<Event<nat>>)
    ensures Run(TINY, 1, 0, es) == State(1, [Bucket(0, [0], [Free], 1), Bucket(1, [7], [Filled], 0)], [Idle], Top,
                                         [7], [], [Grant(1, 0, 0)])
  {
    InitialTiny();
    es := TakeSlot([], Run<nat>(TINY, 1, 0, []), 7);
    var s1 := Run(TINY, 1, 0, es);
    es := WriteSlot(es, s1);
    es := IdleTurn(es, Run(TINY, 1, 0, es));
    var bs := [Bucket(0, [0], [Free], 0), Bucket(1, [7], [Filled], 0)];
    assert bs[0 := Bucket(0, [0], [Free], 1)] == [Bucket(0, [0], [Free], 1), Bucket(1, [7], [Filled], 0)];
  }

  lemma OnceSent() returns (es: seq<Event<nat>>)
    ensures Run(TINY, 1, 0, es) == State(0, [Bucket(0, [0], [Free], 1), Bucket(0, [7], [Free], 1)], [Idle], Top,
                                         [7], [7], [Grant(1, 0, 0)])
  {
    es := OnceWritten();
    es := SendSlot(es, Run(TINY, 1, 0, es));
    var s := Run(TINY, 1, 0, es);
    assert s.buckets == [Bucket(0, [0], [Free], 1), Bucket(1, [7], [Gone], 0)];
    LeaveSlot(es, s);
    es := FinishTurn(es + [Leave], s.(drainer := Leaving(1)));
  }

  lemma LeaveSlot(es: seq<Event<nat>>, s: State<nat>)
    requires Run(TINY, 1, 0, es) == s && s.drainer == Sending(1, 1) && s.k == 1
    ensures Run(TINY, 1, 0, es + [Leave]) == s.(drainer := Leaving(1))
  {
    Take(es, s, Leave, s.(drainer := Leaving(1)));
  }

  /**
   * A slot taken but not yet written when its bucket is drained: the packet of an earlier round goes out again.
   */
  lemma PacketRepeated() returns (es: seq<Event<nat>>)
    ensures var s := Run(TINY, 1, 0, es);
            s.accepted == [7] && s.sent == [7, 7]
  {
    es := OnceSent();
    es := TakenAgain(es);
    es := SendSlot(es, Run(TINY, 1, 0, es));
  }

  lemma TakenAgain(es: seq<Event<nat>>) returns (fs: seq<Event<nat>>)
    requires Run(TINY, 1, 0, es) == State(0, [Bucket(0, [0], [Free], 1), Bucket(0, [7], [Free], 1)], [Idle], Top,
                                          [7], [7], [Grant(1, 0, 0)])
    ensures var s := Run(TINY, 1, 0, fs);
            && s.drainer == Top && s.k == 1 && s.accepted == [7] && s.sent == [7]
            && |s.buckets| == 2 && s.buckets[1] == Bucket(1, [7], [Reserved(0)], 1)
  {
    var b0, b1 := Bucket(0, [0], [Free], 1), Bucket(1, [7], [Reserved(0)], 1);
    fs := TakeSlot(es, Run(TINY, 1, 0, es), 8);
    var s := Run(TINY, 1, 0, fs);
    assert s.buckets == [b0, b1];
    fs := IdleTurn(fs, s);
    assert [b0, b1][0 := Bucket(0, [0], [Free], 2)] == [Bucket(0, [0], [Free], 2), b1];
  }
}
