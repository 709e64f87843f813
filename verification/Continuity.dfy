/** The continuity protocol: pausing a flow and resuming it at most once (continuity/manager.go, continuity/container.go). */
module Continuity {
  import opened Wrappers

  type Id = nat
  type Time = int

  /** `identity` 0 is the nil UUID: no identity. */
  datatype Container = Container(name: string, identity: Id, expiresAt: Time, payload: string)

  datatype Error = NoName | NotResumable | Expired | Forbidden | BadPayload

  /** `issued` are the IDs ever given out: a stored container gets a fresh UUID. */
  datatype Store = Store(containers: map<Id, Container>, issued: set<Id>)

  /** How Continue leaves the container: deleted, or kept until a new expiry. */
  datatype Mode = Delete | ExpireAt(at: Time)

  /** A request. The reference is whatever the client presents, so old ones may be replayed;
      `firstClock` and `secondClock` are the two clock reads of Continue, `decodes` whether the payload decodes. */
  datatype Event =
    | Pause(id: Id, container: Container)
    | Continue(reference: Option<Id>, identity: Id, mode: Mode, firstClock: Time, secondClock: Time, decodes: bool)
    | Abort(reference: Option<Id>)

  /** The container Continue hands out, with its ID. */
  datatype Answer = Done | Resumed(id: Id, container: Container) | Failed(error: Error)

  /** Expiry times are truncated to whole seconds; clocks count nanoseconds. */
  function ToSecond(t: Time): Time { t - t % 1_000_000_000 }

  predicate ValidAt(c: Container, identity: Id, now: Time) {
    now <= c.expiresAt && (identity == 0 || c.identity == identity)
  }

  // ----- the program -----

  class Manager {
    var store: Store

    ghost predicate Valid()
      reads this
    {
      store.containers.Keys <= store.issued
    }

    constructor ()
      ensures Valid() && store == Store(map[], {})
    {
      store := Store(map[], {});
    }

    method Pause(name: string, id: Id, identity: Id, now: Time, ttl: Time, payload: string) returns (r: Result<Id, Error>)
      requires Valid() && id !in store.issued
      modifies this
      ensures Valid()
      ensures r == if name == "" then Err(NoName) else Ok(id)
      ensures r.Err? ==> store == old(store)
      ensures r.Ok? ==> Step(old(store), Event.Pause(id, Container(name, identity, ToSecond(now + ttl), payload))) == (store, Done)
    {
      if name == "" { return Err(NoName); }
      store := Store(store.containers[id := Container(name, identity, ToSecond(now + ttl), payload)], store.issued + {id});
      return Ok(id);
    }

    method Continue(e: Event) returns (r: Answer)
      requires Valid() && e.Continue?
      modifies this
      ensures Valid() && (store, r) == Step(old(store), e)
    {
      if e.reference.None? { return Failed(NotResumable); }
      var sid := e.reference.value;
      if sid !in store.containers { return Failed(NotResumable); }
      var container := store.containers[sid];
      if container.expiresAt < e.firstClock { return Failed(NotResumable); }
      if container.expiresAt < e.secondClock { return Failed(Expired); }
      if e.identity != 0 && container.identity != e.identity { return Failed(Forbidden); }
      if !e.decodes { return Failed(BadPayload); }
      match e.mode {
        case ExpireAt(at) =>
          store := store.(containers := store.containers[sid := container.(expiresAt := at)]);
        case Delete =>
          store := store.(containers := store.containers - {sid});
      }
      return Resumed(sid, container);
    }

    method Abort(reference: Option<Id>) returns (r: Answer)
      requires Valid()
      modifies this
      ensures Valid() && (store, r) == Step(old(store), Event.Abort(reference))
    {
      if reference.Some? {
        store := store.(containers := store.containers - {reference.value});
      }
      return Done;
    }
  }

  /** One request as a function of the store. */
  function Step(s: Store, e: Event): (Store, Answer) {
    match e
    case Pause(id, c) => (Store(s.containers[id := c], s.issued + {id}), Done)
    case Abort(reference) =>
      ((if reference.Some? then s.(containers := s.containers - {reference.value}) else s), Done)
    case Continue(reference, identity, mode, first, second, decodes) =>
      if reference.None? || reference.value !in s.containers then (s, Failed(NotResumable))
      else
        var id, c := reference.value, s.containers[reference.value];
        if c.expiresAt < first then (s, Failed(NotResumable))
        else if c.expiresAt < second then (s, Failed(Expired))
        else if identity != 0 && c.identity != identity then (s, Failed(Forbidden))
        else if !decodes then (s, Failed(BadPayload))
        else
          var rest := match mode
            case ExpireAt(at) => s.containers[id := c.(expiresAt := at)]
            case Delete => s.containers - {id};
          (s.(containers := rest), Resumed(id, c))
  }

  // ----- runs -----

  /** A sequential run: the stores between the requests; paused containers get IDs never issued before. */
  ghost predicate Run(stores: seq<Store>, events: seq<Event>) {
    && |stores| == |events| + 1
    && stores[0].containers.Keys <= stores[0].issued
    && forall i :: 0 <= i < |events| ==>
         && (events[i].Pause? ==> events[i].id !in stores[i].issued)
         && Step(stores[i], events[i]).0 == stores[i + 1]
  }

  function AnswerAt(stores: seq<Store>, events: seq<Event>, i: nat): Answer
    requires i < |events| && i < |stores|
  {
    Step(stores[i], events[i]).1
  }

  ghost predicate Gone(s: Store, id: Id) {
    id in s.issued && id !in s.containers
  }

  lemma {:induction false} RunKeepsIssued(stores: seq<Store>, events: seq<Event>, n: nat)
    requires Run(stores, events) && n < |stores|
    ensures stores[n].containers.Keys <= stores[n].issued
  {
    if n > 0 {
      RunKeepsIssued(stores, events, n - 1);
      assert Step(stores[n - 1], events[n - 1]).0 == stores[n - 1 + 1];
    }
  }

  /** What has gone never comes back. */
  lemma {:induction false} GoneStaysGone(stores: seq<Store>, events: seq<Event>, i: nat, n: nat, id: Id)
    requires Run(stores, events) && i <= n < |stores| && Gone(stores[i], id)
    ensures Gone(stores[n], id)
    decreases n
  {
    if i < n {
      GoneStaysGone(stores, events, i, n - 1, id);
      assert Step(stores[n - 1], events[n - 1]).0 == stores[n - 1 + 1];
    }
  }

  /** After a container was continued in delete mode or aborted, no later request resumes it, whatever reference is replayed. */
  lemma ResumedAtMostOnce(stores: seq<Store>, events: seq<Event>, i: nat, j: nat, id: Id)
    requires Run(stores, events) && i < j < |events|
    requires
      || (events[i].Continue? && events[i].mode.Delete? && AnswerAt(stores, events, i).Resumed?
          && AnswerAt(stores, events, i).id == id)
      || (events[i] == Event.Abort(Some(id)) && id in stores[i].issued)
    ensures !(AnswerAt(stores, events, j).Resumed? && AnswerAt(stores, events, j).id == id)
  {
    RunKeepsIssued(stores, events, i);
    assert Step(stores[i], events[i]).0 == stores[i + 1];
    assert Gone(stores[i + 1], id);
    GoneStaysGone(stores, events, i + 1, j, id);
  }

  /** The request paused this container under this ID; only the expiry may have been moved since. */
  ghost predicate PausedAs(e: Event, id: Id, c: Container) {
    e.Pause? && e.id == id && c == e.container.(expiresAt := c.expiresAt)
  }

  lemma {:induction false} ContainerFromPause(stores: seq<Store>, events: seq<Event>, n: nat, id: Id)
    requires Run(stores, events) && n < |stores| && stores[0].containers == map[] && id in stores[n].containers
    ensures exists i :: 0 <= i < n && PausedAs(events[i], id, stores[n].containers[id])
  {
    var m := n - 1;
    assert Step(stores[m], events[m]).0 == stores[m + 1];
    if events[m].Pause? && events[m].id == id {
      assert PausedAs(events[m], id, stores[n].containers[id]);
    } else {
      ContainerFromPause(stores, events, m, id);
      var i :| 0 <= i < m && PausedAs(events[i], id, stores[m].containers[id]);
      assert PausedAs(events[i], id, stores[n].containers[id]);
    }
  }

  /** Every resumed container was paused earlier in the run and is otherwise as paused; it is unexpired at both clock reads
      and belongs to the identity that was given, if one was. */
  lemma ResumedIsSound(stores: seq<Store>, events: seq<Event>, j: nat)
    requires Run(stores, events) && j < |events| && stores[0].containers == map[]
    requires AnswerAt(stores, events, j).Resumed?
    ensures var e, a := events[j], AnswerAt(stores, events, j);
      && e.Continue? && e.reference == Some(a.id)
      && ValidAt(a.container, e.identity, e.firstClock) && ValidAt(a.container, e.identity, e.secondClock)
      && exists i :: 0 <= i < j && PausedAs(events[i], a.id, a.container)
  {
    ContainerFromPause(stores, events, j, AnswerAt(stores, events, j).id);
  }

  // ----- when a request succeeds -----

  /** The referenced container is there, unexpired at both clock reads, of the given identity if one is given, and decodes. */
  ghost predicate Resumable(s: Store, e: Event)
    requires e.Continue?
  {
    && e.reference.Some? && e.reference.value in s.containers
    && var c := s.containers[e.reference.value];
       && e.firstClock <= c.expiresAt && e.secondClock <= c.expiresAt
       && (e.identity == 0 || c.identity == e.identity) && e.decodes
  }

  /** Continue succeeds exactly then, with the stored container; otherwise nothing changes. In expire mode the container
      stays stored until the new expiry, in delete mode it is gone; no other container changes. */
  lemma ResumedIff(s: Store, e: Event)
    requires e.Continue?
    ensures Step(s, e).1.Resumed? <==> Resumable(s, e)
    ensures !Resumable(s, e) ==> Step(s, e).0 == s
    ensures Resumable(s, e) ==> var id, t := e.reference.value, Step(s, e).0.containers;
      && Step(s, e).1 == Resumed(id, s.containers[id])
      && (e.mode.Delete? ==> id !in t)
      && (e.mode.ExpireAt? ==> id in t && t[id] == s.containers[id].(expiresAt := e.mode.at))
      && forall other :: other != id ==> (other in t <==> other in s.containers) && (other in t ==> t[other] == s.containers[other])
  {}

  /** What was just paused can be continued by its identity, or without one, until it expires. */
  lemma PausedIsResumable(s: Store, id: Id, c: Container, identity: Id, mode: Mode, first: Time, second: Time)
    requires first <= c.expiresAt && second <= c.expiresAt && (identity == 0 || identity == c.identity)
    ensures Step(Step(s, Event.Pause(id, c)).0, Event.Continue(Some(id), identity, mode, first, second, true)).1 == Resumed(id, c)
  {
    ResumedIff(Step(s, Event.Pause(id, c)).0, Event.Continue(Some(id), identity, mode, first, second, true));
  }

  /** Pause and Abort change one container. */
  lemma OthersKept(s: Store, e: Event, other: Id)
    requires !e.Continue? && (e.Pause? ==> other != e.id) && (e.Abort? ==> e.reference != Some(other))
    ensures other in Step(s, e).0.containers <==> other in s.containers
    ensures other in s.containers ==> Step(s, e).0.containers[other] == s.containers[other]
  {}

  /** The latest whole second that is not after the time. */
  lemma WholeSecond(t: Time)
    ensures ToSecond(t) <= t < ToSecond(t) + 1_000_000_000 && ToSecond(t) % 1_000_000_000 == 0
  {}
}
