/** A run of the broker from the start to a client reading a message: one shard, one connection. */
module BrokerExample {
  import opened Wrappers
  import opened Bytes
  import opened Subject
  import opened Trie
  import opened TableHistory
  import opened Dispatch
  import opened EndToEnd
  import opened ClientStream
  import opened Broker
  import opened BrokerTheorems
  import W = Wire
  import G = Registration
  import F = Fanout
  import X = CrossShard
  import Sh = Shard
  import Wr = Writer
  import E = Emit

  const SUBJECT: Bytes := [65]
  const SID: Bytes := [49]

  /** PUB A, with nothing in it, sent by the only connection. */
  const FRAME: X.PubFrame := X.PubFrame(0, SUBJECT, None, [])

  /** MSG A 1 */
  const MESSAGE: W.Frame := W.Msg(SUBJECT, SID, None, [])

  const LISTENER: Sub := Sub(0, SID, None)

  lemma SubjectParses()
    ensures ParsePublisher(SUBJECT) == Ok([SUBJECT])
  {
    var rest := Split(SUBJECT[1..]);
    assert SUBJECT[1..] == [] && rest == [[]] && rest[1..] == [] && [SUBJECT[0]] + rest[0] == SUBJECT;
    assert Split(SUBJECT) == [SUBJECT];
  }

  /** The registry after the connection is accepted and subscribed to everything. */
  const LISTENING: G.Registry :=
    G.Registry([Subscribe([GREATER], LISTENER)], map[0 := map[SID := [GREATER]]], map[0 := 0], 1)

  lemma OneMatch()
    ensures X.Publishable(FRAME) && Sh.MatchesOf(LISTENING.history, FRAME) == [LISTENER]
  {
    SubjectParses();
    RootSubject();
    assert [Subscribe([GREATER], LISTENER)][..0] == [];
    assert After([Subscribe([GREATER], LISTENER)]) == Table(Node([], [LISTENER], map[], None), 1);
    assert Walk(Node([], [LISTENER], map[], None), [SUBJECT]) == [LISTENER];
  }

  lemma OneSelected()
    ensures Selects([LISTENER], [Target(0, SID)])
  {
    assert [LISTENER][..0] == [];
    assert Ungrouped([LISTENER]) == [Target(0, SID)] && Groups([LISTENER]) == [];
  }

  lemma Lengths()
    ensures |W.Encode(MESSAGE)| == 13 && |W.Encode(W.Pub(SUBJECT, None, []))| <= 13
  {
    MsgLength(SUBJECT, SID, None, []);
    E.PubInOrder(SUBJECT, None, []);
    E.PayloadInOrder(W.Pub(SUBJECT, None, []));
  }

  lemma FramesArrive()
    ensures Arrived(W.Sub([GREATER], None, SID)) && Sh.PubArrived(FRAME)
  {
    Lengths();
    ArrivedIsLegal(W.Sub([GREATER], None, SID));
    ArrivedIsLegal(W.Pub(SUBJECT, None, []));
  }

  // --------------------------------------------------------------------- run

  predicate OneShard(cfg: Config) {
    cfg.shards == 1 && cfg.cap >= 2 && cfg.sizes.capacity >= 13 && cfg.sizes.bufLen >= 21
  }

  lemma Start(cfg: Config) returns (b: Broker)
    requires OneShard(cfg)
    ensures BrokerReachable(cfg, b) && b.sys == X.InitSystem(1, cfg.cap) && b.shards == [Sh.Init()]
  {
    b := InitBroker(cfg);
    assert BrokerExec(cfg, []) == b;
  }

  lemma Accepted(cfg: Config) returns (b: Broker)
    requires OneShard(cfg)
    ensures BrokerReachable(cfg, b) && b.sys == X.InitSystem(1, cfg.cap)
    ensures b.shards == [Sh.State(G.Registry([], map[0 := map[]], map[0 := 0], 1),
                                  map[0 := NewOut(cfg.sizes.capacity, cfg.sizes.bufLen)], [])]
  {
    b := Start(cfg);
    var step := Local(0, Sh.Register(G.Accept));
    BrokerReachableStep(cfg, b, step);
    b := BrokerNext(b, step, cfg.sizes);
  }

  lemma Registers()
    ensures G.Next(G.Registry([], map[0 := map[]], map[0 := 0], 1), G.Sub(0, [GREATER], None, SID)) == LISTENING
  {
    var r, sids: G.Sids := G.Registry([], map[0 := map[]], map[0 := 0], 1), map[];
    RootSubject();
    assert r.history + [Subscribe([GREATER], LISTENER)] == LISTENING.history;
    assert sids[SID := [GREATER]] == map[SID := [GREATER]];
    assert r.readers[0 := map[SID := [GREATER]]] == LISTENING.readers;
  }

  lemma Subscribed(cfg: Config) returns (b: Broker)
    requires OneShard(cfg)
    ensures BrokerReachable(cfg, b) && b.sys == X.InitSystem(1, cfg.cap)
    ensures b.shards == [Sh.State(LISTENING, map[0 := NewOut(cfg.sizes.capacity, cfg.sizes.bufLen)], [])]
  {
    b := Accepted(cfg);
    FramesArrive();
    Registers();
    var step := Local(0, Sh.Register(G.Sub(0, [GREATER], None, SID)));
    BrokerReachableStep(cfg, b, step);
    b := BrokerNext(b, step, cfg.sizes);
  }

  const DISPATCH: Sh.Service := Sh.Service(FRAME, 0, LISTENING, [Target(0, SID)])

  lemma OneDue()
    ensures Sh.DueFrom(DISPATCH, 0) == [MESSAGE]
  {
    var p := Sh.PubOf(FRAME);
    Lengths();
    assert F.Reaches(LISTENING.registered, p, Target(0, SID), 0);
    KeepsOne(Target(0, SID), t => F.Reaches(LISTENING.registered, p, t, 0));
    assert FramesFor(p, [Target(0, SID)]) == [MESSAGE];
  }

  lemma KeepsOne(t: Target, ok: Target -> bool)
    requires ok(t)
    ensures F.Keep([t], ok) == [t]
  {
    assert [t][..0] == [];
  }

  /** The dispatch of the PUB. */
  lemma ServesOne(o: Out, sizes: Sh.Sizes)
    ensures Sh.Next(Sh.State(LISTENING, map[0 := o], []), Sh.Serve(FRAME, 0, [Target(0, SID)]), sizes) ==
            Sh.State(LISTENING, map[0 := Send(o, MESSAGE)], [DISPATCH])
  {
    var outs: F.Outs := map[0 := o];
    OneDue();
    F.DispatchEach(outs, LISTENING.registered, Sh.PubOf(FRAME), [Target(0, SID)], 0);
    assert [MESSAGE][..0] == [];
    assert SendAll(o, [MESSAGE]) == Send(o, MESSAGE);
    assert F.DispatchTo(outs, LISTENING.registered, Sh.PubOf(FRAME), [Target(0, SID)]) == map[0 := Send(o, MESSAGE)];
  }

  lemma Published(cfg: Config) returns (b: Broker)
    requires OneShard(cfg)
    ensures BrokerReachable(cfg, b) && |b.shards| == 1 && b.shards[0].served == [DISPATCH]
    ensures b.shards[0].outs == map[0 := Send(NewOut(cfg.sizes.capacity, cfg.sizes.bufLen), MESSAGE)]
  {
    b := Subscribed(cfg);
    FramesArrive();
    OneMatch();
    OneSelected();
    ServesOne(NewOut(cfg.sizes.capacity, cfg.sizes.bufLen), cfg.sizes);
    var step := Publish(0, FRAME, [Target(0, SID)]);
    assert X.SysEnabled(b.sys, X.Handle(0, FRAME));
    BrokerReachableStep(cfg, b, step);
    b := BrokerNext(b, step, cfg.sizes);
  }

  /** Enqueue, one turn to drain, one turn to finish the write. */
  lemma WriterSends(capacity: nat, bufLen: nat, enc: Bytes)
    requires 0 < |enc| <= capacity && |enc| <= bufLen
    ensures var c := Do(Do(Do(Wr.Init(capacity, bufLen), Wr.Enqueue(enc)), Wr.Turn(0)), Wr.Turn(|enc|));
            c.reasons == [] && c.writer.Parked? && c.buffer.head == |c.buffer.data|
  {
    var c := Do(Wr.Init(capacity, bufLen), Wr.Enqueue(enc));
    assert [] + enc == enc && enc[0..] == enc;
    assert c.buffer.data == enc;
    var d := Do(c, Wr.Turn(0));
    assert d.writer == Wr.Writing(enc) && d.buffer.data == [];
  }

  lemma Written(cfg: Config) returns (b: Broker)
    requires OneShard(cfg)
    ensures BrokerReachable(cfg, b) && |b.shards| == 1 && b.shards[0].served == [DISPATCH]
    ensures 0 in b.shards[0].outs && Flushed(b.shards[0].outs[0]) && b.shards[0].outs[0].offered == [MESSAGE]
  {
    b := Published(cfg);
    Lengths();
    WriterSends(cfg.sizes.capacity, cfg.sizes.bufLen, W.Encode(MESSAGE));
    var first, second := Local(0, Sh.Turn(0, 0)), Local(0, Sh.Turn(0, |W.Encode(MESSAGE)|));
    BrokerReachableStep(cfg, b, first);
    b := BrokerNext(b, first, cfg.sizes);
    BrokerReachableStep(cfg, b, second);
    b := BrokerNext(b, second, cfg.sizes);
  }

  /**
   A reachable state of which `EndToEndDelivery` speaks, with something delivered: the connection
   subscribed to `>`, published to A, and its client has read the message back.
   */
  lemma SomebodyReads(cfg: Config) returns (b: Broker)
    requires OneShard(cfg)
    ensures BrokerReachable(cfg, b) && |b.shards| == 1 && 0 in b.shards[0].outs && Flushed(b.shards[0].outs[0])
    ensures Sh.Msgs(ReadsOf(b.shards[0].outs[0].conn.socket, 3).frames) == [MESSAGE]
  {
    b := Written(cfg);
    var schedule :| b == BrokerExec(cfg, schedule);
    EndToEndDelivery(cfg, schedule, 0, 0, 3);
    OneDue();
    assert [DISPATCH][..0] == [];
  }
}
