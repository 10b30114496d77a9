/**
 Delivery seen from one producer: what the drain task dispatches from it, compared with what its
 own `push` calls answered.
 */
module InboxDelivery {
  import opened Inbox
  import opened InboxInvariant
  import opened InboxSteps
  import opened InboxTheorems

  /** The values producer i put into a log, in order. */
  function From<V>(log: seq<(ProducerId, V)>, i: ProducerId): seq<V> {
    if log == [] then []
    else
      var last := log[|log| - 1];
      From(log[..|log| - 1], i) + if last.0 == i then [last.1] else []
  }

  /** The values whose push answered Ok, in order. */
  function Accepted<V>(answers: seq<(V, bool)>): seq<V> {
    if answers == [] then []
    else
      var last := answers[|answers| - 1];
      Accepted(answers[..|answers| - 1]) + if last.1 then [last.0] else []
  }

  /** The value a producer has claimed a position for while its push has not answered yet. */
  function InFlight<V>(pc: ProducerPc<V>): seq<V> {
    if pc.WriteSlot? || pc.PublishSlot? || pc.LoadHead? then [pc.v] else []
  }

  /** What was dispatched from producer i: `dispatched` is the log up to its own length. */
  function DispatchedFrom<V>(s: State<V>, i: ProducerId): seq<V>
    requires |s.dispatched| <= |s.log|
  {
    From(s.log[..|s.dispatched|], i)
  }

  ghost predicate AnswersMatch<V>(s: State<V>, i: ProducerId) {
    From(s.log, i) == Accepted(s.Returned(i)) + InFlight(s.Pc(i))
  }

  lemma AppendFrom<V>(log: seq<(ProducerId, V)>, e: (ProducerId, V), i: ProducerId)
    ensures From(log + [e], i) == From(log, i) + if e.0 == i then [e.1] else []
  {
    assert (log + [e])[..|log|] == log;
  }

  lemma AppendAccepted<V>(answers: seq<(V, bool)>, a: (V, bool))
    ensures Accepted(answers + [a]) == Accepted(answers) + if a.1 then [a.0] else []
  {
    assert (answers + [a])[..|answers|] == answers;
  }

  lemma Unaffected<V>(s: State<V>, s': State<V>, i: ProducerId)
    requires AnswersMatch(s, i)
    requires s'.log == s.log && s'.Returned(i) == s.Returned(i) && InFlight(s'.Pc(i)) == InFlight(s.Pc(i))
    ensures AnswersMatch(s', i)
  {
  }

  lemma ClaimKeepsAnswers<V>(s: State<V>, s': State<V>, j: ProducerId, v: V, t: nat, i: ProducerId)
    requires AnswersMatch(s, i) && InFlight(s.Pc(j)) == []
    requires s'.log == s.log + [(j, v)] && s'.returned == s.returned
    requires s'.producers == s.producers[j := WriteSlot(v, t)]
    ensures AnswersMatch(s', i)
  {
    AppendFrom(s.log, (j, v), i);
    if i != j {
      assert From(s'.log, i) == From(s.log, i);
    }
  }

  /** A push that answers Ok was in flight; one that answers Full was not. */
  lemma AnswerKeepsAnswers<V>(s: State<V>, s': State<V>, j: ProducerId, v: V, ok: bool, i: ProducerId)
    requires AnswersMatch(s, i) && InFlight(s.Pc(j)) == if ok then [v] else []
    requires s'.log == s.log && s'.returned == s.Answer(j, v, ok).returned
    requires s'.producers.Keys == s.producers.Keys + {j} && InFlight(s'.Pc(j)) == []
    requires i != j ==> s'.Pc(i) == s.Pc(i)
    ensures AnswersMatch(s', i)
  {
    if i == j {
      AppendAccepted(s.Returned(i), (v, ok));
    } else {
      Unaffected(s, s', i);
    }
  }

  lemma ProducerKeepsAnswers<V>(s: State<V>, j: ProducerId, spurious: bool, i: ProducerId)
    requires s.Cap() > 0 && !s.Pc(j).Idle? && AnswersMatch(s, i)
    ensures AnswersMatch(NextProducer(Unbounded, s, j, spurious), i)
  {
    var s' := NextProducer(Unbounded, s, j, spurious);
    var pc := s.Pc(j);
    if pc.Cas? && s.tail == pc.t && !spurious {
      ClaimKeepsAnswers(s, s', j, pc.v, pc.t, i);
    } else if pc.LoadSeq? && s.At(pc.t).seqNo < pc.t {
      AnswerKeepsAnswers(s, s', j, pc.v, false, i);
    } else if pc.LoadHead? {
      AnswerKeepsAnswers(s, s', j, pc.v, true, i);
    } else {
      assert s'.log == s.log && s'.returned == s.returned;
      assert InFlight(s'.Pc(j)) == InFlight(pc);
      Unaffected(s, s', i);
    }
  }

  lemma ConsumerKeepsAnswers<V>(s: State<V>, i: ProducerId)
    requires Enabled(s, Consumer) && AnswersMatch(s, i)
    ensures AnswersMatch(NextConsumer(Unbounded, s), i)
  {
    Unaffected(s, NextConsumer(Unbounded, s), i);
  }

  lemma StepKeepsAnswers<V>(s: State<V>, step: Step<V>, i: ProducerId)
    requires Enabled(s, step) && AnswersMatch(s, i)
    ensures AnswersMatch(Next(Unbounded, s, step), i)
  {
    match step
    case Begin(j, v) => Unaffected(s, s.Goto(j, LoadTail(v)), i);
    case Producer(j, spurious) => ProducerKeepsAnswers(s, j, spurious, i);
    case Consumer => ConsumerKeepsAnswers(s, i);
  }

  lemma {:induction false} AlwaysAnswers<V>(cap: nat, schedule: seq<Step<V>>, i: ProducerId)
    ensures AnswersMatch(Exec(Unbounded, cap, schedule), i)
  {
    if schedule != [] {
      var before := schedule[..|schedule| - 1];
      AlwaysAnswers(cap, before, i);
      var s, step := Exec(Unbounded, cap, before), schedule[|schedule| - 1];
      if Enabled(s, step) {
        StepKeepsAnswers(s, step, i);
      }
    }
  }

  lemma {:induction false} FromPrefix<V>(log: seq<(ProducerId, V)>, n: nat, i: ProducerId)
    requires n <= |log|
    ensures From(log[..n], i) <= From(log, i)
  {
    if n < |log| {
      FromPrefix(log[..|log| - 1], n, i);
      assert log[..|log| - 1][..n] == log[..n];
    } else {
      assert log[..n] == log;
    }
  }

  lemma DispatchedIsLog<V>(s: State<V>)
    requires Inv(s)
    ensures |s.dispatched| <= |s.log| && s.dispatched == Values(s.log[..|s.dispatched|])
  {
    var n := |s.dispatched|;
    assert s.dispatched == s.popped[..n];
    assert Values(s.log[..ReadCount(s)])[..n] == Values(s.log[..n]);
  }

  /**
   Per-publisher delivery: on every run the frames dispatched from producer i are an initial part
   of its accepted pushes (plus at most the one still in flight), each once and in push order; and
   once the drain task sleeps with nobody mid-push, they are exactly the accepted ones.
   */
  lemma Delivery<V(!new)>(cap: nat, s: State<V>, i: ProducerId)
    requires cap >= 2 && Reachable(cap, s)
    ensures |s.dispatched| <= |s.log| && s.dispatched == Values(s.log[..|s.dispatched|])
    ensures DispatchedFrom(s, i) <= Accepted(s.Returned(i)) + InFlight(s.Pc(i))
    ensures Asleep(s) && NoneMidPush(s) ==> DispatchedFrom(s, i) == Accepted(s.Returned(i))
  {
    ReachableInv(cap, s);
    var schedule: seq<Step<V>> :| s == Exec(Unbounded, cap, schedule);
    AlwaysAnswers(cap, schedule, i);
    var n := |s.dispatched|;
    DispatchedIsLog(s);
    FromPrefix(s.log, n, i);
    if Asleep(s) && NoneMidPush(s) {
      AsleepMeansDone(s);
      assert s.log[..n] == s.log;
      assert !Claimed(s.Pc(i));
    }
  }
}
