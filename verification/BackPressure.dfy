/**
 Which PUBs were refused by some other shard's inbox, and when their worker knows: in `handle_pub` a
 refused push is noted and told to the publisher once, after all other shards have been tried.
 */
module BackPressure {
  import opened CrossShard

  /** Some inbox refused the k-th valid PUB of worker i. */
  ghost predicate Refused(sys: System, i: nat, k: nat) {
    exists j :: 0 <= j < |sys.inboxes| && j != i && RefusedBy(sys.inboxes[j].Returned(i), k)
  }

  predicate RefusedBy(answers: seq<(PubFrame, bool)>, k: nat) {
    k < |answers| && !answers[k].1
  }

  /** Worker i has been to every other shard with its frame. */
  predicate Finishing(sys: System, i: nat) {
    i < |sys.workers| && sys.workers[i].pc.Visiting? && sys.workers[i].pc.peer >= |sys.inboxes|
  }

  /** `back_pressure_seen` at that moment: the last answer of some inbox was a refusal. */
  ghost predicate PressureSeen(sys: System, i: nat) {
    exists j :: 0 <= j < |sys.inboxes| && j != i && LastRefused(sys.inboxes[j].Returned(i))
  }

  predicate LastRefused(answers: seq<(PubFrame, bool)>) {
    answers != [] && !answers[|answers| - 1].1
  }

  /** How many valid PUBs worker i is through with. */
  function Done(sys: System, i: nat): (n: nat)
    requires i < |sys.workers|
    ensures n <= |Valid(sys.workers[i].handled)|
  {
    var n := |Valid(sys.workers[i].handled)|;
    if sys.workers[i].pc.Ready? || n == 0 then n else n - 1
  }

  /** How many of the first n valid PUBs of worker i are t's and were refused by some inbox. */
  ghost function Refusals(sys: System, i: nat, t: nat, n: nat): nat
    requires i < |sys.workers| && n <= |Valid(sys.workers[i].handled)|
  {
    if n == 0 then 0
    else
      Refusals(sys, i, t, n - 1) +
      if Valid(sys.workers[i].handled)[n - 1].publisher == t && Refused(sys, i, n - 1) then 1 else 0
  }

  // ------------------------------------------------------------------- steps

  /** What inboxes have answered worker i and what it has handled is only added to. */
  ghost predicate Grows(sys: System, sys': System, i: nat) {
    && i < |sys.workers| == |sys'.workers| && |sys'.inboxes| == |sys.inboxes|
    && Valid(sys.workers[i].handled) <= Valid(sys'.workers[i].handled)
    && forall j | 0 <= j < |sys.inboxes| :: sys.inboxes[j].Returned(i) <= sys'.inboxes[j].Returned(i)
  }

  lemma StepGrows(sys: System, step: SysStep, i: nat)
    requires SysEnabled(sys, step) && i < |sys.workers|
    ensures Grows(sys, SysNext(sys, step), i)
  {
    match step
    case Handle(a, f) => ValidAppend(sys.workers[a].handled, f);
    case Push(a, spurious) =>
      var s := sys.inboxes[sys.workers[a].pc.peer];
      if !s.Pc(a).Idle? {
        ProducerEffect(s, a, spurious, i);
        ProducerEffect(s, a, spurious, a);
      }
    case _ =>
  }

  /** Every other inbox has answered for what the worker is through with. */
  ghost predicate Answered(sys: System, i: nat, n: nat) {
    forall j | 0 <= j < |sys.inboxes| && j != i :: n <= |sys.inboxes[j].Returned(i)|
  }

  lemma DoneAnswered(sys: System, cap: nat, i: nat)
    requires SysInv(sys, cap) && i < |sys.workers|
    ensures Answered(sys, i, Done(sys, i))
  {
    forall j | 0 <= j < |sys.inboxes| && j != i
      ensures Done(sys, i) <= |sys.inboxes[j].Returned(i)|
    {
      assert LinkOk(sys, i, j);
      assert |Offered(sys.inboxes[j].Returned(i))| == |sys.inboxes[j].Returned(i)|;
    }
  }

  lemma RefusedSame(sys: System, sys': System, i: nat, n: nat, k: nat)
    requires Grows(sys, sys', i) && Answered(sys, i, n) && k < n
    ensures Refused(sys', i, k) <==> Refused(sys, i, k)
  {
    forall j | 0 <= j < |sys.inboxes| && j != i
      ensures RefusedBy(sys'.inboxes[j].Returned(i), k) <==> RefusedBy(sys.inboxes[j].Returned(i), k)
    {
      assert n <= |sys.inboxes[j].Returned(i)| && sys.inboxes[j].Returned(i) <= sys'.inboxes[j].Returned(i);
    }
  }

  lemma {:induction false} RefusalsSame(sys: System, sys': System, i: nat, t: nat, n: nat, m: nat)
    requires Grows(sys, sys', i) && Answered(sys, i, n) && m <= n <= |Valid(sys.workers[i].handled)|
    ensures Refusals(sys', i, t, m) == Refusals(sys, i, t, m)
  {
    if m > 0 {
      RefusalsSame(sys, sys', i, t, n, m - 1);
      RefusedSame(sys, sys', i, n, m - 1);
    }
  }

  /** Only its return from the last shard takes a worker further. */
  lemma DoneStep(sys: System, cap: nat, step: SysStep, i: nat)
    requires SysInv(sys, cap) && SysEnabled(sys, step) && i < |sys.workers|
    ensures i < |SysNext(sys, step).workers|
    ensures Done(SysNext(sys, step), i) == Done(sys, i) + if step == Visit(i) && Finishing(sys, i) then 1 else 0
  {
    assert LinkOk(sys, i, i);
    if step.Handle? {
      ValidAppend(sys.workers[step.i].handled, step.frame);
    }
  }

  lemma LastIsCurrent(answers: seq<(PubFrame, bool)>, valid: seq<PubFrame>)
    requires Offered(answers) == valid && valid != []
    ensures LastRefused(answers) <==> RefusedBy(answers, |valid| - 1)
  {
    assert |Offered(answers)| == |answers|;
  }

  /** By then the last answers are all about the frame the worker has been round with. */
  lemma FinishSeen(sys: System, cap: nat, i: nat)
    requires SysInv(sys, cap) && Finishing(sys, i)
    ensures var valid := Valid(sys.workers[i].handled);
            && valid != [] && valid[|valid| - 1] == sys.workers[i].pc.frame
            && (PressureSeen(sys, i) <==> Refused(sys, i, |valid| - 1))
  {
    var valid := Valid(sys.workers[i].handled);
    assert LinkOk(sys, i, i);
    forall j | 0 <= j < |sys.inboxes| && j != i
      ensures LastRefused(sys.inboxes[j].Returned(i)) <==> RefusedBy(sys.inboxes[j].Returned(i), |valid| - 1)
    {
      assert LinkOk(sys, i, j) && !Owes(sys, i, j);
      LastIsCurrent(sys.inboxes[j].Returned(i), valid);
    }
  }

  /** Whom worker i has to tell of back-pressure in a step. */
  ghost predicate Tells(sys: System, step: SysStep, i: nat, t: nat) {
    step == Visit(i) && Finishing(sys, i) && PressureSeen(sys, i) && sys.workers[i].pc.frame.publisher == t
  }

  /** One more refused PUB of t's to tell of, exactly when the worker returns from its round and saw a refusal. */
  lemma RefusalsStep(sys: System, cap: nat, step: SysStep, i: nat, t: nat)
    requires SysInv(sys, cap) && SysEnabled(sys, step) && i < |sys.workers|
    ensures var sys' := SysNext(sys, step);
            && i < |sys'.workers|
            && Refusals(sys', i, t, Done(sys', i)) == Refusals(sys, i, t, Done(sys, i)) + if Tells(sys, step, i, t) then 1 else 0
  {
    var sys', n := SysNext(sys, step), Done(sys, i);
    StepGrows(sys, step, i);
    DoneAnswered(sys, cap, i);
    DoneStep(sys, cap, step, i);
    RefusalsSame(sys, sys', i, t, n, n);
    if step == Visit(i) && Finishing(sys, i) {
      FinishSeen(sys, cap, i);
      SameInboxes(sys, i);
    }
  }

  lemma SameInboxes(sys: System, i: nat)
    requires SysEnabled(sys, Visit(i)) && Finishing(sys, i)
    ensures var sys' := SysNext(sys, Visit(i));
            sys'.inboxes == sys.inboxes && sys'.workers[i].handled == sys.workers[i].handled
            && forall k: nat :: Refused(sys', i, k) <==> Refused(sys, i, k)
  {
  }
}
