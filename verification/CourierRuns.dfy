/** Properties of the courier queue over whole runs: retry bound, single delivery, draining. */
module CourierRuns {
  import opened Courier

  /** One event of a run: a round over some batch with some channel outcomes, or a newly queued message. */
  ghost predicate RoundStep(c: Config, before: Store, after: Store) {
    exists batch, outcomes :: Round(c, before, after, batch, outcomes)
  }

  ghost predicate Adds(before: Store, after: Store, id: MessageId) {
    id !in before && after == before[id := Message(Queued, 0, [], 0)]
  }

  ghost predicate AddStep(before: Store, after: Store) {
    exists id: MessageId :: Adds(before, after, id)
  }

  ghost predicate Run(c: Config, trace: seq<Store>) {
    forall i :: 0 <= i < |trace| - 1 ==> RoundStep(c, trace[i], trace[i + 1]) || AddStep(trace[i], trace[i + 1])
  }

  /** What is true of every message between rounds. */
  ghost predicate Sound(c: Config, m: Message) {
    && m.status != Processing
    && m.sendCount <= c.maxRetries + 1
    && |m.dispatches| == m.sendCount
    && (forall i :: 0 <= i < |m.dispatches| ==>
         (m.dispatches[i] == Success <==> m.status == Sent && i == |m.dispatches| - 1))
    && m.deliveries == (if m.status == Sent then 1 else 0)
    && (m.status == Sent ==> m.sendCount > 0)
    && (m.status == Abandoned ==> m.sendCount == c.maxRetries + 1)
  }

  ghost predicate SoundStore(c: Config, store: Store) {
    forall id :: id in store ==> Sound(c, store[id])
  }

  lemma FinalIsSound(c: Config, m: Message, o: Outcome)
    requires Sound(c, m) && m.status == Queued
    ensures Sound(c, Final(c, m, o))
  {}

  lemma RoundKeepsSound(c: Config, before: Store, after: Store)
    requires SoundStore(c, before) && RoundStep(c, before, after)
    ensures SoundStore(c, after)
  {
    var batch, outcomes :| Round(c, before, after, batch, outcomes);
    forall id | id in after ensures Sound(c, after[id]) {
      if id in batch {
        var k :| 0 <= k < |batch| && batch[k] == id;
        FinalIsSound(c, before[id], outcomes[k]);
      } else {
        assert after[id] == before[id];
      }
    }
  }

  /** In every run, no message is attempted more than maxRetries+1 times, each attempt is recorded,
      nothing is delivered twice, and nothing stays processing. */
  lemma {:induction false} RunIsSound(c: Config, trace: seq<Store>, n: nat)
    requires Run(c, trace) && n < |trace| && SoundStore(c, trace[0])
    ensures SoundStore(c, trace[n])
  {
    if n > 0 {
      RunIsSound(c, trace, n - 1);
      assert trace[n - 1 + 1] == trace[n];
      if RoundStep(c, trace[n - 1], trace[n]) {
        RoundKeepsSound(c, trace[n - 1], trace[n]);
      } else {
        var id: MessageId :| Adds(trace[n - 1], trace[n], id);
        assert SoundStore(c, trace[n]);
      }
    }
  }

  /** Sent and abandoned are final: a finished message is the same in every later store,
      so a sent message is never delivered again. */
  lemma {:induction false} FinishedIsFinal(c: Config, trace: seq<Store>, i: nat, n: nat, id: MessageId)
    requires Run(c, trace) && i <= n < |trace|
    requires id in trace[i] && (trace[i][id].status == Sent || trace[i][id].status == Abandoned)
    ensures id in trace[n] && trace[n][id] == trace[i][id]
    decreases n
  {
    if i < n {
      FinishedIsFinal(c, trace, i, n - 1, id);
      assert trace[n - 1 + 1] == trace[n];
      if RoundStep(c, trace[n - 1], trace[n]) {
        var batch, outcomes :| Round(c, trace[n - 1], trace[n], batch, outcomes);
        assert id !in batch;
      }
    }
  }

  /** A channel that marks a message abandoned and returns an error does not finish it: the requeue undoes the mark. */
  lemma ChannelAbandonmentIsUndone(c: Config, before: Store, after: Store, batch: seq<MessageId>, outcomes: seq<Outcome>, k: nat)
    requires Round(c, before, after, batch, outcomes) && k < |batch|
    requires Reached(c, before, batch, outcomes, k)
    requires outcomes[k] == Fail(true) && before[batch[k]].sendCount <= c.maxRetries
    ensures after[batch[k]].status == Queued && after[batch[k]].sendCount == before[batch[k]].sendCount + 1
  {
    assert after[batch[k]] == Final(c, before[batch[k]], outcomes[k]);
  }

  // ----- draining -----

  ghost function Sum(ids: set<MessageId>, weight: MessageId -> nat): nat
    decreases |ids|
  {
    if ids == {} then 0 else
    var id :| id in ids;
    weight(id) + Sum(ids - {id}, weight)
  }

  lemma {:induction false} SumTakes(ids: set<MessageId>, weight: MessageId -> nat, id: MessageId)
    requires id in ids
    ensures Sum(ids, weight) == weight(id) + Sum(ids - {id}, weight)
    decreases |ids|
  {
    var x :| x in ids && Sum(ids, weight) == weight(x) + Sum(ids - {x}, weight);
    if x != id {
      SumTakes(ids - {x}, weight, id);
      assert ids - {x} - {id} == ids - {id} - {x};
      SumTakes(ids - {id}, weight, x);
    }
  }

  lemma {:induction false} SumMonotone(ids: set<MessageId>, a: MessageId -> nat, b: MessageId -> nat)
    requires forall id :: id in ids ==> a(id) <= b(id)
    ensures Sum(ids, a) <= Sum(ids, b)
    decreases |ids|
  {
    if ids != {} {
      var id :| id in ids;
      SumTakes(ids, a, id);
      SumTakes(ids, b, id);
      SumMonotone(ids - {id}, a, b);
    }
  }

  /** Attempts still to be spent, plus one round to give the message up. */
  ghost function Weight(c: Config, m: Message): nat {
    if (m.status == Queued || m.status == Processing) && m.sendCount <= c.maxRetries + 1
    then c.maxRetries + 2 - m.sendCount else 0
  }

  ghost function WeightIn(c: Config, store: Store): MessageId -> nat {
    id => if id in store then Weight(c, store[id]) else 0
  }

  ghost function Remaining(c: Config, store: Store): nat {
    Sum(store.Keys, WeightIn(c, store))
  }

  /** Each non-empty round spends something. */
  lemma RoundSpends(c: Config, before: Store, after: Store, batch: seq<MessageId>, outcomes: seq<Outcome>)
    requires SoundStore(c, before) && Round(c, before, after, batch, outcomes) && batch != []
    ensures Remaining(c, after) < Remaining(c, before)
  {
    var a, b := WeightIn(c, after), WeightIn(c, before);
    var first := batch[0];
    forall id | id in before ensures a(id) <= b(id) && (id == first ==> a(id) < b(id)) {
      assert Sound(c, before[id]);
      if id in batch {
        var k :| 0 <= k < |batch| && batch[k] == id;
        assert id == first ==> k == 0;
        assert Reached(c, before, batch, outcomes, 0);
      }
    }
    SumTakes(before.Keys, a, first);
    SumTakes(before.Keys, b, first);
    SumMonotone(before.Keys - {first}, a, b);
  }

  ghost predicate NoneQueued(store: Store) {
    forall id :: id in store ==> store[id].status != Queued
  }

  /** Rounds only, and NextMessages claims something whenever something is queued. */
  ghost predicate Working(c: Config, trace: seq<Store>) {
    forall i :: 0 <= i < |trace| - 1 ==> WorkingStep(c, trace[i], trace[i + 1])
  }

  ghost predicate WorkingStep(c: Config, before: Store, after: Store) {
    exists batch, outcomes ::
      Round(c, before, after, batch, outcomes) && (batch == [] ==> NoneQueued(before))
  }

  lemma NothingRemains(c: Config, store: Store)
    requires SoundStore(c, store) && Remaining(c, store) == 0
    ensures NoneQueued(store)
  {
    forall id | id in store ensures store[id].status != Queued {
      assert Sound(c, store[id]);
      SumTakes(store.Keys, WeightIn(c, store), id);
    }
  }

  lemma {:induction false} WorkingProgress(c: Config, trace: seq<Store>, n: nat)
    requires Working(c, trace) && n < |trace| && SoundStore(c, trace[0])
    ensures SoundStore(c, trace[n])
    ensures NoneQueued(trace[n]) || Remaining(c, trace[n]) + n <= Remaining(c, trace[0])
  {
    if n > 0 {
      WorkingProgress(c, trace, n - 1);
      var before, after := trace[n - 1], trace[n];
      assert trace[n - 1 + 1] == after;
      var batch, outcomes :| Round(c, before, after, batch, outcomes) && (batch == [] ==> NoneQueued(before));
      RoundKeepsSound(c, before, after);
      if batch == [] {
        assert forall id :: id in before ==> after[id] == before[id];
      } else {
        RoundSpends(c, before, after, batch, outcomes);
        assert before[batch[0]].status == Queued;
      }
    }
  }

  /** In both failure modes the queue drains: after as many rounds as there are attempts to spend, nothing is queued. */
  lemma QueueDrains(c: Config, trace: seq<Store>, n: nat)
    requires Working(c, trace) && n < |trace| && SoundStore(c, trace[0])
    requires n >= Remaining(c, trace[0])
    ensures NoneQueued(trace[n])
    ensures forall id :: id in trace[n] ==> trace[n][id].status == Sent || trace[n][id].status == Abandoned
  {
    WorkingProgress(c, trace, n);
    if !NoneQueued(trace[n]) {
      NothingRemains(c, trace[n]);
    }
    forall id | id in trace[n] ensures trace[n][id].status == Sent || trace[n][id].status == Abandoned {
      assert Sound(c, trace[n][id]);
    }
  }
}
