/** That changes arrive: what a stream is sent, what alone can end it, and that nothing announced is skipped. */
module Delivery {
  import opened Base
  import opened Hub

  // One delivery

  /** An authorised change is buffered for a stream that is live and has room. */
  lemma AllowedIsBuffered(w: World, answer: Decision)
    requires Enabled(w, Deliver(answer)) && Answer(w, answer) == Allowed
    requires var s := w.subs[w.targets[0]]; s.registered && !s.dropped && |s.buffer| < 64
    ensures var s := w.subs[w.targets[0]];
            var after := Next(w, Deliver(answer));
            && w.targets[0] in after.subs
            && after.subs[w.targets[0]] == s.(buffer := s.buffer + [w.history[|w.history| - 1].resource])
            && after.closing == []
  {
    hide Noted;
  }

  /**
   What ends a stream: its reader's drop, a failed check, a finished close, a close of all, or a
   change it could not be sent.
   */
  predicate Ends(w: World, s: Step, id: SubId)
    requires id in w.subs
  {
    match s
    case Drop(x) => x == id
    case CheckStanding(x, ok) => x == id && !ok && !w.subs[id].passed && !w.subs[id].dropped
    case NotifyWaiters => w.closing != [] && w.flagged && w.closing[0] == id
    case CloseAll => w.targets == [] && w.closing == [] && (w.phase == CloseThenRebuild || w.phase == CloseThenListen)
    case AcquireFails => id in w.targets && w.closing == []
    case Deliver(answer) =>
      && Enabled(w, s) && w.targets[0] == id
      && (Answer(w, answer) == Failed || (Answer(w, answer) == Allowed && |w.subs[id].buffer| >= 64))
    case _ => false
  }

  /** A stream's flags: registered means open to its reader, and only a close in progress or done is seen. */
  predicate FlagSound(w: World, id: SubId)
    requires id in w.subs
  {
    var s := w.subs[id];
    && (s.registered ==> !s.dropped && !s.signalled)
    && (s.woken ==> s.signalled)
    && (s.closed && !s.signalled ==> w.flagged && w.closing != [] && w.closing[0] == id)
  }

  predicate FlagsSound(w: World) { forall id :: id in w.subs ==> FlagSound(w, id) }

  lemma FlagStep(w: World, s: Step, id: SubId)
    requires id in w.subs && FlagSound(w, id)
    ensures id in Next(w, s).subs && FlagSound(Next(w, s), id)
  {
    hide InOrder, Registered, Noted, Announced, Answer, Delivered, Dispatched;
    if s.Dispatch? {
      if Enabled(w, s) { DispatchKeepsStreams(w); }
    } else if s.Deliver? {
      if Enabled(w, s) { DeliveryKeepsFlags(w, s.answer, id); }
    } else if s.CloseAll? || s.AcquireFails? {
      hide Polled;
    } else if s.Poll? {
      hide Unregister;
    } else {
      hide Polled, Unregister;
    }
  }

  lemma DeliveryKeepsFlags(w: World, answer: Decision, id: SubId)
    requires Enabled(w, Deliver(answer)) && id in w.subs
    ensures var t := Delivered(w, answer).subs[id];
            && id in Delivered(w, answer).subs && t.dropped == w.subs[id].dropped && t.signalled == w.subs[id].signalled
            && t.woken == w.subs[id].woken && t.closed == w.subs[id].closed && (t.registered ==> w.subs[id].registered)
            && t.viewer == w.subs[id].viewer && t.since == w.subs[id].since
  {
    hide Noted, Answer;
  }

  lemma DispatchKeepsStreams(w: World)
    requires Enabled(w, Dispatch)
    ensures Dispatched(w).subs == w.subs
  {
    hide InOrder;
  }

  lemma FlagsSoundStep(w: World, s: Step)
    requires FlagsSound(w)
    ensures FlagsSound(Next(w, s))
  {
    hide FlagSound, Apply;
    forall id | id in Next(w, s).subs ensures FlagSound(Next(w, s), id) {
      if id in w.subs { FlagStep(w, s, id); } else { NewStreamIsSound(w, s, id); }
    }
  }

  lemma NewStreamIsSound(w: World, s: Step, id: SubId)
    requires id in Next(w, s).subs && id !in w.subs
    ensures FlagSound(Next(w, s), id)
  {
    hide InOrder, Registered, Noted, Announced, Answer, Polled;
  }

  lemma {:induction false} FlagsSoundRun(w: World, steps: seq<Step>)
    requires FlagsSound(w)
    ensures FlagsSound(Run(w, steps))
    decreases |steps|
  {
    hide Next, FlagsSound;
    if steps != [] {
      FlagsSoundStep(w, steps[0]);
      FlagsSoundRun(Next(w, steps[0]), steps[1..]);
    }
  }

  /** A registered stream is unregistered by exactly those. */
  lemma EndsExactly(w: World, s: Step, id: SubId)
    requires FlagsSound(w) && id in w.subs && w.subs[id].registered
    ensures id in Next(w, s).subs && (Next(w, s).subs[id].registered <==> !Ends(w, s, id))
    ensures Next(w, s).subs[id].viewer == w.subs[id].viewer && Next(w, s).subs[id].since == w.subs[id].since
  {
    hide Noted, Announced, Answer, Dispatched, Polled;
    if s.Dispatch? {
      if Enabled(w, s) { DispatchKeepsStreams(w); }
    } else if s.Deliver? {
      hide Unregister;
    } else {
      OtherEnds(w, s, id);
    }
  }

  lemma OtherEnds(w: World, s: Step, id: SubId)
    requires FlagsSound(w) && id in w.subs && w.subs[id].registered && !s.Dispatch? && !s.Deliver?
    ensures id in Next(w, s).subs && (Next(w, s).subs[id].registered <==> !Ends(w, s, id))
    ensures Next(w, s).subs[id].viewer == w.subs[id].viewer && Next(w, s).subs[id].since == w.subs[id].since
  {
    hide Announced, Answer, Dispatched, Delivered;
    if s.CloseAll? || s.AcquireFails? {
      hide Polled;
    } else if s.Poll? {
      hide Unregister;
    } else {
      hide Polled, Unregister;
    }
  }

  /** A stream is to be closed only for its own membership: its access was announced as revoked, or the answer was no access. */
  lemma ClosedForItsOwn(w: World, s: Step, id: SubId)
    requires id in Next(w, s).closing && id !in w.closing
    ensures id in w.subs
    ensures || (s.Dispatch? && Enabled(w, s) && w.subs[id].registered
                && w.queue[0] == Notification(w.subs[id].viewer.tenant, AccessRevoked(w.subs[id].viewer.membership)))
            || (s.Deliver? && Enabled(w, s) && w.targets[0] == id && Answer(w, s.answer) == NoAccess)
  {
    hide Noted, Announced, Answer, Polled, Unregister, Sent;
  }

  // Reading

  /** A reader that calls `recv` on an open stream with something buffered gets the first of it. */
  lemma RecvReturnsTheFirst(w: World, id: SubId)
    requires FlagsSound(w) && id in w.subs && w.subs[id].registered && !w.subs[id].closed
    requires w.subs[id].reading == Idle && w.subs[id].buffer != []
    ensures var s := w.subs[id];
            Next(Next(Next(w, CreateNotified(id)), ReadFlag(id)), Poll(id)).subs
              == w.subs[id := s.(received := s.received + [s.buffer[0]], buffer := s.buffer[1..], woken := false)]
  {
    hide InOrder, Registered, Noted, Announced, Answer, Unregister, Sent, Dispatched, Delivered;
    var s := w.subs[id];
    var one := w.(subs := w.subs[id := s.(reading := Created, woken := false)]);
    var two := w.(subs := w.subs[id := s.(reading := Polling, woken := false)]);
    assert Next(w, CreateNotified(id)) == one;
    ReadsFlag(one, id);
    assert two == one.(subs := one.subs[id := one.subs[id].(reading := Polling)]);
    PollReturnsTheFirst(two, id);
    assert two.subs[id].buffer[..1] == [s.buffer[0]];
  }

  lemma ReadsFlag(w: World, id: SubId)
    requires Enabled(w, ReadFlag(id)) && !w.subs[id].closed
    ensures Next(w, ReadFlag(id)) == w.(subs := w.subs[id := w.subs[id].(reading := Polling)])
  {
    hide InOrder, Registered, Noted, Announced, Answer, Unregister, Sent, Dispatched, Delivered, Polled;
  }

  /** Wherever the reader stood: a poll that no close has woken returns the first item buffered. */
  lemma PollReturnsTheFirst(w: World, id: SubId)
    requires Enabled(w, Poll(id)) && !w.subs[id].woken && w.subs[id].buffer != []
    ensures var s := w.subs[id];
            Next(w, Poll(id)).subs
              == w.subs[id := s.(received := s.received + s.buffer[..1], buffer := s.buffer[1..], reading := Idle)]
  {
    hide InOrder, Registered, Noted, Announced, Answer, Unregister, Sent, Dispatched, Delivered;
    assert w.subs[id].buffer[..1] == [w.subs[id].buffer[0]];
  }

  // A stream that nothing ends

  /** None of a run's steps ends the stream. */
  ghost predicate NeverEnded(w: World, steps: seq<Step>, id: SubId)
    decreases |steps|
  {
    steps == [] || (id in w.subs && !Ends(w, steps[0], id) && NeverEnded(Next(w, steps[0]), steps[1..], id))
  }

  lemma {:induction false} NeverEndedExactly(w: World, steps: seq<Step>, id: SubId)
    requires FlagsSound(w) && id in w.subs && w.subs[id].registered
    ensures id in Run(w, steps).subs
    ensures Run(w, steps).subs[id].registered <==> NeverEnded(w, steps, id)
    ensures Run(w, steps).subs[id].viewer == w.subs[id].viewer && Run(w, steps).subs[id].since == w.subs[id].since
    decreases |steps|
  {
    hide Next, FlagsSound, Ends;
    if steps != [] {
      EndsExactly(w, steps[0], id);
      FlagsSoundStep(w, steps[0]);
      var next := Next(w, steps[0]);
      if next.subs[id].registered {
        NeverEndedExactly(next, steps[1..], id);
      } else {
        StaysUnregistered(next, steps[1..], id);
      }
    }
  }

  lemma UnregisteredStep(w: World, s: Step, id: SubId)
    requires id in w.subs && !w.subs[id].registered
    ensures id in Next(w, s).subs && !Next(w, s).subs[id].registered
    ensures Next(w, s).subs[id].viewer == w.subs[id].viewer && Next(w, s).subs[id].since == w.subs[id].since
  {
    hide InOrder, Registered, Noted, Announced, Answer, Delivered, Dispatched;
    if s.Dispatch? {
      if Enabled(w, s) { DispatchKeepsStreams(w); }
    } else if s.Deliver? {
      if Enabled(w, s) { DeliveryKeepsFlags(w, s.answer, id); }
    } else if s.CloseAll? || s.AcquireFails? {
      hide Polled;
    } else {
      OneStreamStep(w, s, id);
    }
  }

  /** The steps of one stream's reader, check or closing. */
  lemma OneStreamStep(w: World, s: Step, id: SubId)
    requires !s.Dispatch? && !s.Deliver? && !s.CloseAll? && !s.AcquireFails? && id in w.subs && !w.subs[id].registered
    ensures id in Next(w, s).subs && !Next(w, s).subs[id].registered
    ensures Next(w, s).subs[id].viewer == w.subs[id].viewer && Next(w, s).subs[id].since == w.subs[id].since
  {
    hide InOrder, Registered, Noted, Announced, Answer, Delivered, Dispatched, Unregister;
  }

  lemma {:induction false} StaysUnregistered(w: World, steps: seq<Step>, id: SubId)
    requires id in w.subs && !w.subs[id].registered
    ensures id in Run(w, steps).subs && !Run(w, steps).subs[id].registered
    ensures Run(w, steps).subs[id].viewer == w.subs[id].viewer && Run(w, steps).subs[id].since == w.subs[id].since
    decreases |steps|
  {
    hide Next;
    if steps != [] {
      UnregisteredStep(w, steps[0], id);
      StaysUnregistered(Next(w, steps[0]), steps[1..], id);
    }
  }

  // What the listener takes up

  /** What a step announces on a connection that is up. */
  function Announces(w: World, s: Step): seq<Notification> {
    if !w.connected then []
    else
      match s
      case CommitRevocation(v) => [Notification(v.tenant, AccessRevoked(v.membership))]
      case CommitChange(tenant, resource) => [Notification(tenant, Changed(resource))]
      case _ => []
  }

  /** What a step takes from the queue to dispatch. */
  function Takes(w: World, s: Step): seq<Notification> {
    if s.Dispatch? && Enabled(w, s) then [w.queue[0]] else []
  }

  ghost function AllAnnounced(w: World, steps: seq<Step>): seq<Notification>
    decreases |steps|
  {
    if steps == [] then [] else Announces(w, steps[0]) + AllAnnounced(Next(w, steps[0]), steps[1..])
  }

  ghost function AllTaken(w: World, steps: seq<Step>): seq<Notification>
    decreases |steps|
  {
    if steps == [] then [] else Takes(w, steps[0]) + AllTaken(Next(w, steps[0]), steps[1..])
  }

  /** The connection is up and the listener is not being rebuilt. */
  predicate Healthy(w: World) { w.connected && w.phase != CloseThenRebuild && w.phase != Rebuilding }

  /** Only a lost connection and a rebuilt one drop what is queued; while it is down nothing is queued. */
  lemma QueueStep(w: World, s: Step)
    requires !s.LoseConnection? && !s.Rebuilt?
    ensures w.queue + Announces(w, s) == Takes(w, s) + Next(w, s).queue
  {
    hide InOrder, Registered, Noted, Answer, Polled, Unregister, Sent;
  }

  lemma HealthyStep(w: World, s: Step)
    requires Healthy(w) && !s.LoseConnection?
    ensures Healthy(Next(w, s))
    ensures s.Rebuilt? ==> Next(w, s) == w
  {
    hide InOrder, Registered, Noted, Answer, Polled, Unregister, Sent;
  }

  /**
   While the connection holds, everything announced is dispatched in the order of the commits,
   but for what is still queued: nothing is lost, invented or overtaken.
   */
  lemma {:induction false} NothingAnnouncedIsSkipped(w: World, steps: seq<Step>)
    requires Healthy(w) && forall s :: s in steps ==> !s.LoseConnection?
    ensures w.queue + AllAnnounced(w, steps) == AllTaken(w, steps) + Run(w, steps).queue
    decreases |steps|
  {
    hide Next, Announces, Takes, Healthy;
    if steps != [] {
      var next := Next(w, steps[0]);
      assert steps[0] in steps;
      HealthyStep(w, steps[0]);
      if steps[0].Rebuilt? { NothingOfIt(w, steps[0]); } else { QueueStep(w, steps[0]); }
      NothingAnnouncedIsSkipped(next, steps[1..]);
      calc {
        w.queue + AllAnnounced(w, steps);
        w.queue + Announces(w, steps[0]) + AllAnnounced(next, steps[1..]);
        Takes(w, steps[0]) + (next.queue + AllAnnounced(next, steps[1..]));
        Takes(w, steps[0]) + AllTaken(next, steps[1..]) + Run(next, steps[1..]).queue;
      }
    }
  }

  lemma NothingOfIt(w: World, s: Step)
    requires s.Rebuilt?
    ensures Announces(w, s) == [] && Takes(w, s) == []
  {
  }

  /** A change taken up is recorded and aimed at every stream registered in its FAU, and at no other. */
  lemma DispatchAims(w: World)
    requires Enabled(w, Dispatch) && w.queue[0].change.Changed?
    ensures var after := Next(w, Dispatch);
            var n := w.queue[0];
            && (forall id :: id in after.targets <==>
                  id in w.subs && w.subs[id].registered && w.subs[id].viewer.tenant == n.tenant)
            && (after.targets != [] ==> after.history == w.history + [Record(n.tenant, n.change.resource, map[])])
            && (after.targets == [] ==> after.history == w.history)
            && after.subs == w.subs && after.closing == []
  {
    hide InOrder;
    var n := w.queue[0];
    assert forall id :: id in Registered(w, n.tenant)
                   <==> id in w.subs && w.subs[id].registered && w.subs[id].viewer.tenant == n.tenant;
    if Registered(w, n.tenant) != {} {
      var id :| id in Registered(w, n.tenant);
      assert Next(w, Dispatch).targets == InOrder(Registered(w, n.tenant)) && id in Next(w, Dispatch).targets;
    }
  }

  /** A revocation taken up closes every stream of that membership in that FAU, and no other. */
  lemma RevocationAims(w: World)
    requires Enabled(w, Dispatch) && w.queue[0].change.AccessRevoked?
    ensures Next(w, Dispatch).history == w.history && Next(w, Dispatch).subs == w.subs && Next(w, Dispatch).targets == []
    ensures forall id :: id in Next(w, Dispatch).closing
                    <==> id in w.subs && w.subs[id].registered
                         && w.subs[id].viewer == Viewer(w.queue[0].tenant, w.queue[0].change.membership)
  {
    var n := w.queue[0];
    var ids := set id | id in Registered(w, n.tenant) && w.subs[id].viewer.membership == n.change.membership;
    var after := Next(w, Dispatch);
    assert after.closing == InOrder(ids);
    forall id
      ensures id in after.closing
         <==> id in w.subs && w.subs[id].registered && w.subs[id].viewer == Viewer(n.tenant, n.change.membership)
    {
      assert id in after.closing <==> id in ids;
    }
  }

  /** The changes among notifications that concern an FAU. */
  function ChangesOf(ns: seq<Notification>, tenant: TenantId): seq<Resource> {
    if ns == [] then []
    else
      var last := ns[|ns| - 1];
      ChangesOf(ns[..|ns| - 1], tenant)
      + if last.tenant == tenant && last.change.Changed? then [last.change.resource] else []
  }

  function RecordsOf(history: seq<Record>, tenant: TenantId): seq<Resource> {
    if history == [] then []
    else
      var last := history[|history| - 1];
      RecordsOf(history[..|history| - 1], tenant) + if last.tenant == tenant then [last.resource] else []
  }

  lemma {:induction false} ChangesOfBoth(a: seq<Notification>, b: seq<Notification>, tenant: TenantId)
    ensures ChangesOf(a + b, tenant) == ChangesOf(a, tenant) + ChangesOf(b, tenant)
    decreases |b|
  {
    if b == [] {
      assert a + b == a;
    } else {
      assert (a + b)[..|a + b| - 1] == a + b[..|b| - 1];
      ChangesOfBoth(a, b[..|b| - 1], tenant);
    }
  }

  lemma RecordedWhenTaken(w: World, s: Step, id: SubId)
    requires id in w.subs && w.subs[id].registered
    ensures var t := w.subs[id].viewer.tenant;
            RecordsOf(Next(w, s).history, t) == RecordsOf(w.history, t) + ChangesOf(Takes(w, s), t)
  {
    hide InOrder, Answer, Polled, Unregister, Sent, RecordsOf, ChangesOf, Dispatched, Delivered;
    var t := w.subs[id].viewer.tenant;
    NoChanges(t);
    if s.Dispatch? {
      if Enabled(w, s) { TakenIsRecorded(w, id); }
    } else if s.Deliver? {
      if Enabled(w, s) { DeliveryRecordsNothing(w, s.answer, t); }
    } else {
      assert Next(w, s).history == w.history;
    }
  }

  lemma NoChanges(tenant: TenantId)
    ensures ChangesOf([], tenant) == []
  {
  }

  lemma TakenIsRecorded(w: World, id: SubId)
    requires Enabled(w, Dispatch) && id in w.subs && w.subs[id].registered
    ensures var t := w.subs[id].viewer.tenant;
            RecordsOf(Next(w, Dispatch).history, t) == RecordsOf(w.history, t) + ChangesOf([w.queue[0]], t)
  {
    hide InOrder;
    var t := w.subs[id].viewer.tenant;
    var n := w.queue[0];
    assert [n][..0] == [];
    NoChanges(t);
    if n.change.Changed? {
      DispatchAims(w);
      var after := Next(w, Dispatch);
      assert n.tenant == t ==> id in after.targets;
      if after.history != w.history {
        assert after.history[..|w.history|] == w.history;
      }
    }
  }

  lemma DeliveryRecordsNothing(w: World, answer: Decision, tenant: TenantId)
    requires Enabled(w, Deliver(answer))
    ensures RecordsOf(Next(w, Deliver(answer)).history, tenant) == RecordsOf(w.history, tenant)
  {
    hide Answer, Sent;
    var after := Next(w, Deliver(answer));
    assert after.history[..|w.history| - 1] == w.history[..|w.history| - 1];
  }

  /** While a stream is registered, the changes taken up for its FAU are the ones recorded. */
  lemma {:induction false} RecordedWhileRegistered(w: World, steps: seq<Step>, id: SubId)
    requires FlagsSound(w) && id in w.subs && w.subs[id].registered && NeverEnded(w, steps, id)
    ensures var t := w.subs[id].viewer.tenant;
            RecordsOf(Run(w, steps).history, t) == RecordsOf(w.history, t) + ChangesOf(AllTaken(w, steps), t)
    decreases |steps|
  {
    hide Next, FlagsSound, Ends, Takes, RecordsOf;
    var t := w.subs[id].viewer.tenant;
    if steps == [] {
      assert ChangesOf([], t) == [];
    } else {
      var next := Next(w, steps[0]);
      EndsExactly(w, steps[0], id);
      FlagsSoundStep(w, steps[0]);
      RecordedWhenTaken(w, steps[0], id);
      RecordedWhileRegistered(next, steps[1..], id);
      ChangesOfBoth(Takes(w, steps[0]), AllTaken(next, steps[1..]), t);
    }
  }

  /**
   A stream that nothing has ended has got everything. From any reachable world in which it is
   registered, it still is after a run if and only if none of the run's steps ends it; and then the
   changes recorded for its FAU are those before and all that were taken up since, and, unless
   one is being dispatched, it has received or buffered each that was authorised for it.
   */
  lemma UnendedStreamGetsAll(before: seq<Step>, steps: seq<Step>, id: SubId)
    requires id in Run(START, before).subs && Run(START, before).subs[id].registered
    ensures var w := Run(START, before);
            var after := Run(w, steps);
            && id in after.subs
            && (after.subs[id].registered <==> NeverEnded(w, steps, id))
            && (NeverEnded(w, steps, id) ==>
                  var s := after.subs[id];
                  && RecordsOf(after.history, s.viewer.tenant)
                       == RecordsOf(w.history, s.viewer.tenant) + ChangesOf(AllTaken(w, steps), s.viewer.tenant)
                  && (after.targets == [] ==>
                        s.received + s.buffer == Authorised(after.history, s.since, s.viewer)))
  {
    hide Run, AllTaken, Authorised, RecordsOf, ChangesOf, Ends, NeverEnded;
    var w := Run(START, before);
    StreamsSoundRun(START, before);
    StreamsSoundRun(w, steps);
    FlagsSoundRun(START, before);
    NeverEndedExactly(w, steps, id);
    if NeverEnded(w, steps, id) { RecordedWhileRegistered(w, steps, id); }
    assert StreamSound(Run(w, steps), id);
  }
}
