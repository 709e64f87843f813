/** The courier queue: one worker pulling batches and dispatching them (courier/courier_dispatcher.go). */
module Courier {
  import opened Sorting

  type MessageId = nat

  datatype Status = Queued | Sent | Processing | Abandoned

  datatype DispatchStatus = Failed | Success

  /** `deliveries` counts channel dispatches that returned no error: what the recipient has received. */
  datatype Message = Message(
    status: Status, sendCount: nat, dispatches: seq<DispatchStatus>, deliveries: nat)

  type Store = map<MessageId, Message>

  /** What a channel does with one message. `Fail(true)` marks the message abandoned and still returns an error. */
  datatype Outcome = NoChannel | Deliver | Fail(abandons: bool)

  datatype Config = Config(maxRetries: nat, failOnDispatchError: bool)

  /** What NextMessages may claim: distinct queued messages. */
  ghost predicate IsBatch(store: Store, batch: seq<MessageId>) {
    Distinct(batch) && forall k :: 0 <= k < |batch| ==> batch[k] in store && store[batch[k]].status == Queued
  }

  // ----- what a round does to each message -----

  /** The attempt on message `m` is made and fails. */
  ghost predicate Fails(c: Config, m: Message, o: Outcome) {
    m.sendCount <= c.maxRetries && !o.Deliver?
  }

  /** Position `k` is processed: always, unless an earlier failure ended the round. */
  ghost predicate Reached(c: Config, store: Store, batch: seq<MessageId>, outcomes: seq<Outcome>, k: nat)
    requires IsBatch(store, batch) && |outcomes| == |batch| && k <= |batch|
  {
    c.failOnDispatchError ==> forall i :: 0 <= i < k ==> !Fails(c, store[batch[i]], outcomes[i])
  }

  ghost function Final(c: Config, m: Message, o: Outcome): Message {
    if m.sendCount > c.maxRetries then m.(status := Abandoned)
    else if o.Deliver? then Message(Sent, m.sendCount + 1, m.dispatches + [Success], m.deliveries + 1)
    else Message(Queued, m.sendCount + 1, m.dispatches + [Failed], m.deliveries)
  }

  /** A round treats each pulled message on its own and touches no other. */
  ghost predicate Round(c: Config, before: Store, after: Store, batch: seq<MessageId>, outcomes: seq<Outcome>) {
    && IsBatch(before, batch) && |outcomes| == |batch|
    && after.Keys == before.Keys
    && (forall id :: id in before && id !in batch ==> after[id] == before[id])
    && forall k :: 0 <= k < |batch| ==>
         after[batch[k]] == if Reached(c, before, batch, outcomes, k)
                            then Final(c, before[batch[k]], outcomes[k]) else before[batch[k]]
  }

  /** Statuses of the batch from position `k` on are set, and nothing else changes. */
  ghost predicate StatusSetFrom(was: Store, now: Store, batch: seq<MessageId>, k: nat, status: Status)
    requires k <= |batch| && forall i :: 0 <= i < |batch| ==> batch[i] in was
  {
    && now.Keys == was.Keys
    && (forall id :: id in was && id !in batch[k..] ==> now[id] == was[id])
    && forall i :: k <= i < |batch| ==> now[batch[i]] == was[batch[i]].(status := status)
  }

  /** Exactly the listed messages get the status. */
  ghost predicate StatusSet(was: Store, now: Store, ids: seq<MessageId>, status: Status) {
    && now.Keys == was.Keys
    && forall id :: id in was ==> now[id] == if id in ids then was[id].(status := status) else was[id]
  }

  lemma StatusSetNext(was: Store, now: Store, batch: seq<MessageId>, k: nat, r: nat, status: Status)
    requires k <= r < |batch| && batch[r] in was && StatusSet(was, now, batch[k..r], status)
    ensures StatusSet(was, now[batch[r] := now[batch[r]].(status := status)], batch[k..r + 1], status)
  {
    assert batch[k..r + 1] == batch[k..r] + [batch[r]];
  }

  lemma StatusSetAll(was: Store, now: Store, batch: seq<MessageId>, k: nat, status: Status)
    requires k <= |batch| && (forall i :: 0 <= i < |batch| ==> batch[i] in was) && StatusSet(was, now, batch[k..|batch|], status)
    ensures StatusSetFrom(was, now, batch, k, status)
  {
    assert batch[k..|batch|] == batch[k..];
    forall i | k <= i < |batch| ensures batch[i] in batch[k..] { assert batch[k..][i - k] == batch[i]; }
  }

  /** What processing position `k` does: the message gets its final state, and a failure requeues the rest. */
  ghost predicate Processed(c: Config, was: Store, now: Store, batch: seq<MessageId>, k: nat, pulled: Message, outcome: Outcome)
    requires k < |batch| && forall i :: 0 <= i < |batch| ==> batch[i] in was
  {
    && now.Keys == was.Keys
    && now[batch[k]] == Final(c, pulled, outcome)
    && (forall id :: id in was && id !in batch[k..] ==> now[id] == was[id])
    && forall i :: k < i < |batch| ==>
         now[batch[i]] == if Fails(c, pulled, outcome) then was[batch[i]].(status := Queued) else was[batch[i]]
  }

  /** The first `k` messages are done, the rest are as pulled, apart from their status. */
  ghost predicate InRound(c: Config, before: Store, now: Store, batch: seq<MessageId>, outcomes: seq<Outcome>, k: nat)
    requires IsBatch(before, batch) && |outcomes| == |batch| && k <= |batch|
  {
    && now.Keys == before.Keys
    && (forall id :: id in before && id !in batch ==> now[id] == before[id])
    && Reached(c, before, batch, outcomes, k)
    && (forall i :: 0 <= i < k ==> now[batch[i]] == Final(c, before[batch[i]], outcomes[i]))
    && forall i :: k <= i < |batch| ==> now[batch[i]].(status := Queued) == before[batch[i]]
  }

  lemma RoundStarts(c: Config, before: Store, now: Store, batch: seq<MessageId>, outcomes: seq<Outcome>)
    requires IsBatch(before, batch) && |outcomes| == |batch| && StatusSetFrom(before, now, batch, 0, Processing)
    ensures InRound(c, before, now, batch, outcomes, 0)
  {
    assert batch[0..] == batch;
  }

  /** One message of the round: what happened to the others. */
  lemma ProcessedOthers(c: Config, was: Store, now: Store, batch: seq<MessageId>, k: nat, pulled: Message, outcome: Outcome, i: nat)
    requires k < |batch| && Distinct(batch) && (forall j :: 0 <= j < |batch| ==> batch[j] in was) && i < |batch| && i != k
    requires Processed(c, was, now, batch, k, pulled, outcome)
    ensures i < k ==> now[batch[i]] == was[batch[i]]
    ensures i > k ==> now[batch[i]].(status := Queued) == was[batch[i]].(status := Queued)
    ensures i > k && Fails(c, pulled, outcome) ==> now[batch[i]] == was[batch[i]].(status := Queued)
  {
    if i < k {
      assert forall j :: 0 <= j < |batch[k..]| ==> batch[k..][j] == batch[k + j] && batch[i] != batch[k + j];
      assert batch[i] !in batch[k..];
    }
  }

  lemma ProcessedRest(c: Config, was: Store, now: Store, batch: seq<MessageId>, k: nat, pulled: Message, outcome: Outcome, id: MessageId)
    requires k < |batch| && (forall j :: 0 <= j < |batch| ==> batch[j] in was) && id in was && id !in batch
    requires Processed(c, was, now, batch, k, pulled, outcome)
    ensures now[id] == was[id]
  {
    assert id !in batch[k..];
  }

  lemma RoundContinues(
    c: Config, before: Store, was: Store, now: Store, batch: seq<MessageId>, outcomes: seq<Outcome>, k: nat)
    requires IsBatch(before, batch) && |outcomes| == |batch| && k < |batch| && InRound(c, before, was, batch, outcomes, k)
    requires Processed(c, was, now, batch, k, before[batch[k]], outcomes[k])
    requires c.failOnDispatchError ==> !Fails(c, before[batch[k]], outcomes[k])
    ensures InRound(c, before, now, batch, outcomes, k + 1)
  {
    forall id | id in before && id !in batch ensures now[id] == before[id] {
      ProcessedRest(c, was, now, batch, k, before[batch[k]], outcomes[k], id);
    }
    forall i | 0 <= i < |batch| && i != k ensures
      && (i < k ==> now[batch[i]] == was[batch[i]])
      && (i > k ==> now[batch[i]].(status := Queued) == was[batch[i]].(status := Queued))
    {
      ProcessedOthers(c, was, now, batch, k, before[batch[k]], outcomes[k], i);
    }
  }

  /** A failure that ends the round leaves the rest as it was pulled. */
  lemma RoundStops(
    c: Config, before: Store, was: Store, now: Store, batch: seq<MessageId>, outcomes: seq<Outcome>, k: nat)
    requires IsBatch(before, batch) && |outcomes| == |batch| && k < |batch| && InRound(c, before, was, batch, outcomes, k)
    requires Processed(c, was, now, batch, k, before[batch[k]], outcomes[k])
    requires c.failOnDispatchError && Fails(c, before[batch[k]], outcomes[k])
    ensures Round(c, before, now, batch, outcomes) && !Reached(c, before, batch, outcomes, |batch|)
  {
    forall id | id in before && id !in batch ensures now[id] == before[id] {
      ProcessedRest(c, was, now, batch, k, before[batch[k]], outcomes[k], id);
    }
    forall i | 0 <= i < |batch| ensures
      now[batch[i]] == if Reached(c, before, batch, outcomes, i) then Final(c, before[batch[i]], outcomes[i]) else before[batch[i]]
    {
      if i != k { ProcessedOthers(c, was, now, batch, k, before[batch[k]], outcomes[k], i); }
      assert i > k ==> !Reached(c, before, batch, outcomes, i);
    }
  }

  lemma RoundEnds(c: Config, before: Store, now: Store, batch: seq<MessageId>, outcomes: seq<Outcome>)
    requires IsBatch(before, batch) && |outcomes| == |batch| && InRound(c, before, now, batch, outcomes, |batch|)
    ensures Round(c, before, now, batch, outcomes) && Reached(c, before, batch, outcomes, |batch|)
  {}

  // ----- the round as the program runs it -----

  class Worker {
    const c: Config
    var messages: Store

    constructor (c: Config, messages: Store)
      ensures this.c == c && this.messages == messages
    {
      this.c, this.messages := c, messages;
    }

    method SetMessageStatus(id: MessageId, status: Status)
      requires id in messages
      modifies this
      ensures messages == old(messages)[id := old(messages)[id].(status := status)]
    {
      messages := messages[id := messages[id].(status := status)];
    }

    method RecordDispatch(id: MessageId, status: DispatchStatus)
      requires id in messages
      modifies this
      ensures messages == old(messages)[id := old(messages)[id].(dispatches := old(messages)[id].dispatches + [status])]
    {
      messages := messages[id := messages[id].(dispatches := messages[id].dispatches + [status])];
    }

    /** Sets the status of a run of the batch and nothing else: claiming it, or putting it back in the queue. */
    method SetStatusFrom(batch: seq<MessageId>, k: nat, status: Status)
      requires Distinct(batch) && k <= |batch| && forall i :: 0 <= i < |batch| ==> batch[i] in messages
      modifies this
      ensures StatusSetFrom(old(messages), messages, batch, k, status)
    {
      for r := k to |batch|
        invariant StatusSet(old(messages), messages, batch[k..r], status)
      {
        StatusSetNext(old(messages), messages, batch, k, r, status);
        SetMessageStatus(batch[r], status);
      }
      StatusSetAll(old(messages), messages, batch, k, status);
    }

    /** Counts the attempt, hands the message to its channel, and marks it sent if that succeeds. */
    method DispatchMessage(id: MessageId, outcome: Outcome) returns (ok: bool)
      requires id in messages
      modifies this
      ensures ok == outcome.Deliver?
      ensures messages.Keys == old(messages).Keys
      ensures forall other :: other in messages && other != id ==> messages[other] == old(messages)[other]
      ensures var m, n := old(messages)[id], messages[id];
        && n.sendCount == m.sendCount + 1 && n.dispatches == m.dispatches
        && n.deliveries == m.deliveries + (if ok then 1 else 0)
        && n.status == match outcome
                       case Deliver => Sent
                       case Fail(abandons) => if abandons then Abandoned else m.status
                       case NoChannel => m.status
    {
      messages := messages[id := messages[id].(sendCount := messages[id].sendCount + 1)];
      match outcome {
        case NoChannel =>
          ok := false;
        case Fail(abandons) =>
          if abandons { SetMessageStatus(id, Abandoned); }
          ok := false;
        case Deliver =>
          messages := messages[id := messages[id].(deliveries := messages[id].deliveries + 1)];
          SetMessageStatus(id, Sent);
          ok := true;
      }
    }

    /** One round. `batch` is what NextMessages claims; `outcomes[k]` is what the channel does with `batch[k]`. */
    method DispatchQueue(batch: seq<MessageId>, outcomes: seq<Outcome>) returns (ok: bool)
      requires IsBatch(messages, batch) && |outcomes| == |batch|
      modifies this
      ensures Round(c, old(messages), messages, batch, outcomes)
      ensures ok <==> Reached(c, old(messages), batch, outcomes, |batch|)
    {
      var before := messages;
      var pulled := seq(|batch|, k requires 0 <= k < |batch| => before[batch[k]]);
      SetStatusFrom(batch, 0, Processing);
      RoundStarts(c, before, messages, batch, outcomes);
      for k := 0 to |batch|
        invariant InRound(c, before, messages, batch, outcomes, k)
      {
        ghost var was := messages;
        var failed := ProcessOne(batch, k, pulled[k], outcomes[k]);
        if failed && c.failOnDispatchError {
          RoundStops(c, before, was, messages, batch, outcomes, k);
          return false;
        }
        RoundContinues(c, before, was, messages, batch, outcomes, k);
      }
      RoundEnds(c, before, messages, batch, outcomes);
      return true;
    }

    /** The loop body for position `k`: give up, or attempt and on failure requeue from `k` on. */
    method ProcessOne(batch: seq<MessageId>, k: nat, pulled: Message, outcome: Outcome) returns (failed: bool)
      requires Distinct(batch) && k < |batch| && forall i :: 0 <= i < |batch| ==> batch[i] in messages
      requires messages[batch[k]].(status := Queued) == pulled
      modifies this
      ensures failed == Fails(c, pulled, outcome)
      ensures Processed(c, old(messages), messages, batch, k, pulled, outcome)
    {
      assert batch[k..][0] == batch[k];
      assert forall i :: k < i < |batch| ==> batch[i] != batch[k];
      if pulled.sendCount > c.maxRetries {
        SetMessageStatus(batch[k], Abandoned);
        return false;
      }
      var sent := DispatchMessage(batch[k], outcome);
      if !sent {
        RecordDispatch(batch[k], Failed);
        SetStatusFrom(batch, k, Queued);
      } else {
        RecordDispatch(batch[k], Success);
      }
      return !sent;
    }
  }
}
