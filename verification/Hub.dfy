/**
 The change stream of one process: commits announced in order on a connection that may be
 lost, one listener loop that dispatches them, and subscriptions with a bounded buffer and a
 close signal. Every action is one step; steps of different parties interleave freely.
 */
module Hub {
  import opened Base

  type TenantId = nat
  type MembershipId = nat
  type SubId = nat

  const SUBSCRIPTION_BUFFER: nat := 64

  datatype Resource = Fau | Group(id: nat) | GroupContent(id: nat)

  datatype Viewer = Viewer(tenant: TenantId, membership: MembershipId)

  datatype Change = Changed(resource: Resource) | AccessRevoked(membership: MembershipId)

  datatype Notification = Notification(tenant: TenantId, change: Change)

  /** What `authorize` answers for one viewer; `Failed` is a database error. */
  datatype Decision = Allowed | NoAccess | Unreadable | Failed

  /** One dispatched change, with the answer for each membership it was decided for. */
  datatype Record = Record(tenant: TenantId, resource: Resource, decisions: map<MembershipId, Decision>)

  /** Where a subscription's reader is inside `recv`, which may be cancelled there. */
  datatype Reading = Idle | Created | Polling

  /**
   A subscription. `closed` is the signal's flag, `signalled` that `close` has returned,
   `woken` that the reader's `Notified` future has fired.
   */
  datatype Sub = Sub(viewer: Viewer, since: nat, registered: bool, passed: bool, dropped: bool,
                     buffer: seq<Resource>, received: seq<Resource>,
                     closed: bool, signalled: bool, reading: Reading, woken: bool)

  /** The listener loop between two notifications. */
  datatype Phase = Listening | CloseThenRebuild | Rebuilding | CloseThenListen

  /**
   `revoked`: memberships whose access a committed transaction took away. `queue`: announced
   and not yet received. `targets`: subscriptions the change being dispatched still has to
   reach. `closing`: subscriptions being closed; `flagged`: the first one's flag is set.
   */
  datatype World = World(revoked: set<Viewer>, connected: bool, queue: seq<Notification>, phase: Phase,
                         subs: map<SubId, Sub>, targets: seq<SubId>, closing: seq<SubId>, flagged: bool,
                         history: seq<Record>)

  const START := World({}, true, [], Listening, map[], [], [], false, [])

  datatype Step =
    | Register(id: SubId, viewer: Viewer)
    | CheckStanding(id: SubId, ok: bool)
    | Drop(id: SubId)
    | CommitRevocation(viewer: Viewer)
    | CommitReturn(viewer: Viewer)
    | CommitChange(tenant: TenantId, resource: Resource)
    | LoseConnection(kept: nat)
    | Reconnect
    | ListenerFails
    | CloseAll
    | Rebuilt
    | Dispatch
    | AcquireFails
    | Deliver(answer: Decision)
    | SetFlag
    | NotifyWaiters
    | CreateNotified(id: SubId)
    | ReadFlag(id: SubId)
    | Poll(id: SubId)
    | Cancel(id: SubId)

  predicate Busy(w: World) { w.targets != [] || w.closing != [] }

  /** Ids of the registered subscriptions a notification concerns, in some order. */
  ghost function InOrder(ids: set<SubId>): (s: seq<SubId>)
    ensures forall id :: id in s <==> id in ids
    ensures forall i, j :: 0 <= i < j < |s| ==> s[i] != s[j]
  {
    if ids == {} then []
    else
      var id :| id in ids;
      var rest := InOrder(ids - {id});
      assert forall x :: x in ids <==> x == id || x in ids - {id};
      [id] + rest
  }

  function Registered(w: World, tenant: TenantId): set<SubId> {
    set id | id in w.subs && w.subs[id].registered && w.subs[id].viewer.tenant == tenant
  }

  function Announced(w: World, n: Notification): seq<Notification> {
    if w.connected then w.queue + [n] else w.queue
  }

  predicate Enabled(w: World, s: Step) {
    match s
    case Register(id, _) => id !in w.subs
    case CheckStanding(id, ok) =>
      && id in w.subs && !w.subs[id].passed && !w.subs[id].dropped
      && (w.subs[id].viewer in w.revoked ==> !ok)
    case Drop(id) => id in w.subs
    case CommitRevocation(_) => true
    case CommitReturn(_) => true
    case CommitChange(_, _) => true
    case LoseConnection(kept) => w.connected && kept <= |w.queue|
    case Reconnect => !Busy(w) && w.phase == Listening && !w.connected
    case ListenerFails => !Busy(w) && w.phase == Listening && !w.connected
    case CloseAll => !Busy(w) && (w.phase == CloseThenRebuild || w.phase == CloseThenListen)
    case Rebuilt => w.phase == Rebuilding && !Busy(w)
    case Dispatch => !Busy(w) && w.phase == Listening && w.queue != []
    case AcquireFails => w.targets != [] && w.closing == []
    case Deliver(answer) =>
      && w.targets != [] && w.closing == [] && w.history != []
      && w.targets[0] in w.subs
      && (w.subs[w.targets[0]].viewer in w.revoked ==> answer == NoAccess || answer == Failed)
    case SetFlag => w.closing != [] && !w.flagged && w.closing[0] in w.subs
    case NotifyWaiters => w.closing != [] && w.flagged && w.closing[0] in w.subs
    case CreateNotified(id) => id in w.subs && w.subs[id].reading == Idle && !w.subs[id].dropped
    case ReadFlag(id) => id in w.subs && w.subs[id].reading == Created && !w.subs[id].dropped
    case Poll(id) => id in w.subs && w.subs[id].reading == Polling && !w.subs[id].dropped
    case Cancel(id) => id in w.subs && w.subs[id].reading != Idle && !w.subs[id].dropped
  }

  function Unregister(subs: map<SubId, Sub>, ids: set<SubId>): map<SubId, Sub> {
    map id | id in subs :: if id in ids then subs[id].(registered := false) else subs[id]
  }

  /** The answer for a viewer: the one this dispatch already has for the membership, or a fresh one. */
  function Answer(w: World, answer: Decision): Decision
    requires Enabled(w, Deliver(answer))
  {
    var last := w.history[|w.history| - 1];
    var m := w.subs[w.targets[0]].viewer.membership;
    if m in last.decisions then last.decisions[m] else answer
  }

  /** `history` with the last dispatch's answer for `m` noted. */
  function Noted(history: seq<Record>, m: MembershipId, d: Decision): seq<Record>
    requires history != []
  {
    var last := history[|history| - 1];
    history[..|history| - 1] + [last.(decisions := last.decisions[m := d])]
  }

  /** What a delivery does to the subscription it reaches. */
  function Sent(s: Sub, d: Decision, resource: Resource): Sub {
    match d
    case Allowed =>
      if s.dropped || |s.buffer| >= SUBSCRIPTION_BUFFER then s.(registered := false)
      else s.(buffer := s.buffer + [resource])
    case NoAccess => s
    case Unreadable => s
    case Failed => s.(registered := false)
  }

  function Delivered(w: World, answer: Decision): World
    requires Enabled(w, Deliver(answer))
  {
    var id := w.targets[0];
    var s := w.subs[id];
    var d := Answer(w, answer);
    w.(targets := w.targets[1..],
       history := Noted(w.history, s.viewer.membership, d),
       subs := w.subs[id := Sent(s, d, w.history[|w.history| - 1].resource)],
       closing := if d == NoAccess then [id] else [],
       flagged := false)
  }

  /** One poll of the biased select: the close signal first, then the channel. */
  function Polled(w: World, id: SubId): Sub
    requires id in w.subs
  {
    var s := w.subs[id];
    if s.woken then s.(reading := Idle)
    else if s.buffer != [] then s.(reading := Idle, received := s.received + [s.buffer[0]], buffer := s.buffer[1..])
    else if !s.registered && id !in w.targets then s.(reading := Idle)
    else s
  }

  ghost function Dispatched(w: World): World
    requires Enabled(w, Dispatch)
  {
    var n := w.queue[0];
    var rest := w.(queue := w.queue[1..]);
    match n.change
    case AccessRevoked(m) =>
      rest.(closing := InOrder(set id | id in Registered(w, n.tenant) && w.subs[id].viewer.membership == m), flagged := false)
    case Changed(resource) =>
      if Registered(w, n.tenant) == {} then rest
      else rest.(targets := InOrder(Registered(w, n.tenant)), history := w.history + [Record(n.tenant, resource, map[])])
  }

  ghost function Apply(w: World, s: Step): World
    requires Enabled(w, s)
  {
    match s
    case Register(id, viewer) =>
      w.(subs := w.subs[id := Sub(viewer, |w.history|, true, false, false, [], [], false, false, Idle, false)])
    case CheckStanding(id, ok) =>
      w.(subs := w.subs[id := if ok then w.subs[id].(passed := true) else w.subs[id].(dropped := true, registered := false)])
    case Drop(id) => w.(subs := w.subs[id := w.subs[id].(dropped := true, registered := false)])
    case CommitRevocation(v) =>
      w.(revoked := w.revoked + {v}, queue := Announced(w, Notification(v.tenant, AccessRevoked(v.membership))))
    case CommitReturn(v) => w.(revoked := w.revoked - {v})
    case CommitChange(t, resource) => w.(queue := Announced(w, Notification(t, Changed(resource))))
    case LoseConnection(kept) => w.(connected := false, queue := w.queue[..kept])
    case Reconnect => w.(connected := true, phase := CloseThenListen)
    case ListenerFails => w.(phase := CloseThenRebuild)
    case CloseAll =>
      w.(subs := Unregister(w.subs, w.subs.Keys), phase := if w.phase == CloseThenRebuild then Rebuilding else Listening)
    case Rebuilt => w.(connected := true, queue := [], phase := CloseThenListen)
    case Dispatch => Dispatched(w)
    case AcquireFails => w.(subs := Unregister(w.subs, set id | id in w.targets), targets := [])
    case Deliver(answer) => Delivered(w, answer)
    case SetFlag => w.(subs := w.subs[w.closing[0] := w.subs[w.closing[0]].(closed := true)], flagged := true)
    case NotifyWaiters =>
      var s := w.subs[w.closing[0]];
      w.(subs := w.subs[w.closing[0] := s.(signalled := true, registered := false, woken := s.woken || s.reading != Idle)],
         closing := w.closing[1..], flagged := false)
    case CreateNotified(id) => w.(subs := w.subs[id := w.subs[id].(reading := Created, woken := false)])
    case ReadFlag(id) =>
      w.(subs := w.subs[id := w.subs[id].(reading := if w.subs[id].closed then Idle else Polling)])
    case Poll(id) => w.(subs := w.subs[id := Polled(w, id)])
    case Cancel(id) => w.(subs := w.subs[id := w.subs[id].(reading := Idle)])
  }

  /** A step that is not enabled does not happen. */
  ghost function Next(w: World, s: Step): World {
    if Enabled(w, s) then Apply(w, s) else w
  }

  ghost function Run(w: World, steps: seq<Step>): World
    decreases |steps|
  {
    if steps == [] then w else Run(Next(w, steps[0]), steps[1..])
  }

  // No lost revocation

  /** The listener has missed something, or may have, and will still close every stream. */
  predicate CloseAllDue(w: World) { !w.connected || w.phase != Listening }

  predicate Pending(w: World, id: SubId)
    requires id in w.subs
  {
    var v := w.subs[id].viewer;
    || Notification(v.tenant, AccessRevoked(v.membership)) in w.queue
    || id in w.closing
    || CloseAllDue(w)
  }

  /** A live stream that passed its check, of a membership whose access was revoked since. */
  predicate Stale(w: World, id: SubId) {
    && id in w.subs && w.subs[id].registered && w.subs[id].passed && !w.subs[id].closed
    && w.subs[id].viewer in w.revoked
  }

  ghost predicate NoLostRevocation(w: World) {
    forall id :: Stale(w, id) ==> Pending(w, id)
  }

  /** A stream is stale after a step only if it was before, or the step revoked its membership. */
  lemma WasStale(w: World, s: Step, id: SubId)
    requires Enabled(w, s) && Stale(Apply(w, s), id)
    ensures || Stale(w, id) || CloseAllDue(Apply(w, s))
            || (s.CommitRevocation? && id in w.subs && s.viewer == w.subs[id].viewer)
    ensures s.Dispatch? ==> Stale(w, id)
    ensures id in w.subs && Apply(w, s).subs[id].viewer == w.subs[id].viewer
  {
    hide InOrder, Answer, Noted, Announced, Registered;
  }

  /** What is pending for a stream stays so, except what the listener takes up. */
  lemma PendingStays(w: World, s: Step, id: SubId)
    requires Enabled(w, s) && Stale(w, id) && Pending(w, id) && Stale(Apply(w, s), id)
    requires !s.Dispatch? && !s.CommitRevocation? && !s.CommitChange?
    ensures Pending(Apply(w, s), id)
  {
    hide InOrder, Answer, Noted, Registered, Dispatched;
    if s.NotifyWaiters? {
      assert w.closing == [w.closing[0]] + w.closing[1..];
    }
  }

  lemma StillPending(w: World, s: Step, id: SubId)
    requires NoLostRevocation(w) && Enabled(w, s) && Stale(Apply(w, s), id)
    ensures Pending(Apply(w, s), id)
  {
    hide Registered, Unregister, Dispatched, Delivered, Polled, Announced;
    WasStale(w, s, id);
    match s
    case Dispatch => DispatchKeepsPending(w, id);
    case CommitRevocation(v) => RevocationIsPending(w, v, id);
    case CommitChange(tenant, resource) => QueueGrows(w, Notification(tenant, Changed(resource)));
    case _ =>
      hide Apply, Enabled, Pending;
      DuePends(Apply(w, s), id);
      if !CloseAllDue(Apply(w, s)) { PendingStays(w, s, id); }
  }

  lemma DuePends(w: World, id: SubId)
    requires id in w.subs
    ensures CloseAllDue(w) ==> Pending(w, id)
  {
  }

  lemma QueueGrows(w: World, n: Notification)
    ensures forall x :: x in w.queue ==> x in Announced(w, n)
  {
  }

  lemma RevocationIsPending(w: World, v: Viewer, id: SubId)
    requires NoLostRevocation(w)
    requires var after := w.(revoked := w.revoked + {v}, queue := Announced(w, Notification(v.tenant, AccessRevoked(v.membership))));
             Stale(after, id)
    ensures var after := w.(revoked := w.revoked + {v}, queue := Announced(w, Notification(v.tenant, AccessRevoked(v.membership))));
            Pending(after, id)
  {
    var n := Notification(v.tenant, AccessRevoked(v.membership));
    assert w.connected ==> Announced(w, n)[|w.queue|] == n;
    assert w.subs[id].viewer == v || Stale(w, id);
  }

  lemma DispatchKeepsPending(w: World, id: SubId)
    requires Enabled(w, Dispatch) && Stale(w, id) && Pending(w, id)
    ensures Pending(Dispatched(w), id)
  {
    assert w.queue == [w.queue[0]] + w.queue[1..];
  }

  lemma NoLostRevocationStep(w: World, s: Step)
    requires NoLostRevocation(w)
    ensures NoLostRevocation(Next(w, s))
  {
    hide Apply, Enabled, Pending;
    if Enabled(w, s) {
      forall id | Stale(Apply(w, s), id) ensures Pending(Apply(w, s), id) {
        StillPending(w, s, id);
      }
    }
  }

  lemma {:induction false} NoLostRevocationRun(w: World, steps: seq<Step>)
    requires NoLostRevocation(w)
    ensures NoLostRevocation(Run(w, steps))
    decreases |steps|
  {
    hide Next, NoLostRevocation;
    if steps != [] {
      NoLostRevocationStep(w, steps[0]);
      NoLostRevocationRun(Next(w, steps[0]), steps[1..]);
    }
  }

  /**
   In every interleaving, once the listener is healthy and has nothing left to handle, no open
   stream belongs to a membership whose access was revoked after the stream passed its check.
   */
  lemma DrainedMeansClosed(steps: seq<Step>, id: SubId)
    requires var w := Run(START, steps); !CloseAllDue(w) && w.queue == [] && !Busy(w)
    ensures !Stale(Run(START, steps), id)
  {
    NoLostRevocationRun(START, steps);
  }

  // The close signal

  /** A reader past its flag check holds a future that any finished `close` has woken. */
  predicate SignalSound(s: Sub) {
    s.signalled ==> s.closed && (s.reading == Polling ==> s.woken)
  }

  predicate SignalsSound(w: World) {
    && (forall id :: id in w.subs ==> SignalSound(w.subs[id]))
    && (forall id :: id in w.closing ==> id in w.subs)
    && (w.flagged && w.closing != [] ==> w.closing[0] in w.subs && w.subs[w.closing[0]].closed)
  }

  lemma DispatchKeepsSignals(w: World, s: Step)
    requires SignalsSound(w) && Enabled(w, s) && (s.Dispatch? || s.Deliver?)
    ensures SignalsSound(Apply(w, s))
  {
    hide Unregister, Polled, Answer, Noted;
    var after := Apply(w, s);
    assert forall id :: id in after.closing ==> id in w.subs;
    assert !(after.flagged && after.closing != []);
  }

  lemma ClosingKeepsSignals(w: World, s: Step)
    requires SignalsSound(w) && Enabled(w, s) && (s.SetFlag? || s.NotifyWaiters?)
    ensures SignalsSound(Apply(w, s))
  {
    hide Unregister, Polled, Dispatched, Delivered;
    assert w.closing == [w.closing[0]] + w.closing[1..];
  }

  lemma SignalsSoundStep(w: World, s: Step)
    requires SignalsSound(w)
    ensures SignalsSound(Next(w, s))
  {
    hide Dispatched, Delivered, Announced;
    if Enabled(w, s) {
      if s.Dispatch? || s.Deliver? {
        DispatchKeepsSignals(w, s);
      } else if s.SetFlag? || s.NotifyWaiters? {
        ClosingKeepsSignals(w, s);
      } else {
        assert Apply(w, s).closing == w.closing && Apply(w, s).flagged == w.flagged;
      }
    }
  }

  lemma {:induction false} SignalsSoundRun(w: World, steps: seq<Step>)
    requires SignalsSound(w)
    ensures SignalsSound(Run(w, steps))
    decreases |steps|
  {
    hide Next, SignalsSound;
    if steps != [] {
      SignalsSoundStep(w, steps[0]);
      SignalsSoundRun(Next(w, steps[0]), steps[1..]);
    }
  }

  /** A closed subscription's reader gets nothing from a poll. */
  lemma ClosedPollGivesNothing(w: World, id: SubId)
    requires SignalsSound(w) && id in w.subs && w.subs[id].signalled && w.subs[id].reading == Polling
    ensures Polled(w, id).received == w.subs[id].received && Polled(w, id).signalled
  {
    assert SignalSound(w.subs[id]);
  }

  /** Only a poll reads from a subscription, and nothing takes back its close. */
  lemma OnlyPollsRead(w: World, s: Step, id: SubId)
    requires Enabled(w, s) && id in w.subs && !s.Poll? && !s.Deliver?
    ensures id in Apply(w, s).subs && Apply(w, s).subs[id].received == w.subs[id].received
    ensures w.subs[id].signalled ==> Apply(w, s).subs[id].signalled
  {
    hide InOrder, Announced, Registered, Delivered, Polled;
  }

  lemma DeliveriesDoNotRead(w: World, answer: Decision, id: SubId)
    requires Enabled(w, Deliver(answer)) && id in w.subs
    ensures id in Delivered(w, answer).subs && Delivered(w, answer).subs[id].received == w.subs[id].received
    ensures w.subs[id].signalled ==> Delivered(w, answer).subs[id].signalled
  {
    hide Answer, Noted;
  }

  lemma ClosedGivesNothingStep(w: World, s: Step, id: SubId)
    requires SignalsSound(w) && id in w.subs && w.subs[id].signalled
    ensures id in Next(w, s).subs && Next(w, s).subs[id].signalled
    ensures Next(w, s).subs[id].received == w.subs[id].received
  {
    hide Delivered, Polled, SignalsSound;
    if Enabled(w, s) {
      if s.Poll? {
        if s.id == id { ClosedPollGivesNothing(w, id); }
      } else if s.Deliver? {
        DeliveriesDoNotRead(w, s.answer, id);
      } else {
        hide Apply;
        OnlyPollsRead(w, s, id);
      }
    }
  }

  /**
   Once `close` has returned, no poll of `recv` returns an item again, wherever the reader
   stood in `recv` when the flag was set and the waiters were woken, and whatever is buffered.
   */
  lemma {:induction false} ClosedGivesNothing(w: World, steps: seq<Step>, id: SubId)
    requires SignalsSound(w) && id in w.subs && w.subs[id].signalled
    ensures id in Run(w, steps).subs && Run(w, steps).subs[id].received == w.subs[id].received
    decreases |steps|
  {
    hide Next, SignalsSound;
    if steps != [] {
      SignalsSoundStep(w, steps[0]);
      ClosedGivesNothingStep(w, steps[0], id);
      ClosedGivesNothing(Next(w, steps[0]), steps[1..], id);
    }
  }

  // No gaps

  /** The changes of `history` from `since` on that were authorised for the viewer when dispatched. */
  function Authorised(history: seq<Record>, since: nat, v: Viewer): seq<Resource>
    decreases |history|
  {
    if |history| <= since then []
    else
      var last := history[|history| - 1];
      Authorised(history[..|history| - 1], since, v)
      + if last.tenant == v.tenant && v.membership in last.decisions && last.decisions[v.membership] == Allowed
        then [last.resource] else []
  }

  /** A dispatch that has decided nothing yet authorises nothing. */
  lemma UndecidedAddsNothing(history: seq<Record>, r: Record, since: nat, v: Viewer)
    requires r.decisions == map[]
    ensures Authorised(history + [r], since, v) == if |history| < since then [] else Authorised(history, since, v)
  {
    assert (history + [r])[..|history|] == history;
  }

  /** Noting an answer changes what is authorised only for its own viewer, by the last change. */
  lemma NotedAuthorises(history: seq<Record>, m: MembershipId, d: Decision, since: nat, v: Viewer)
    requires history != [] && since < |history|
    ensures var last := history[|history| - 1];
            var before := Authorised(history[..|history| - 1], since, v);
            Authorised(Noted(history, m, d), since, v) ==
              if last.tenant == v.tenant && m == v.membership then
                before + if d == Allowed then [last.resource] else []
              else Authorised(history, since, v)
  {
    var noted := Noted(history, m, d);
    assert noted[..|noted| - 1] == history[..|history| - 1];
  }

  predicate Distinct(ids: seq<SubId>) { forall i, j :: 0 <= i < j < |ids| ==> ids[i] != ids[j] }

  /** A subscription the change being dispatched has yet to reach. */
  predicate TargetSound(w: World, id: SubId)
    requires w.history != []
  {
    && id in w.subs && (w.subs[id].registered || w.subs[id].dropped)
    && w.subs[id].since < |w.history|
    && w.subs[id].viewer.tenant == w.history[|w.history| - 1].tenant
  }

  /** The dispatch has an answer for every subscription it has already reached. */
  predicate Reached(w: World, id: SubId)
    requires w.history != [] && id in w.subs
  {
    var s := w.subs[id];
    var last := w.history[|w.history| - 1];
    && s.since < |w.history| && s.registered && id !in w.targets && s.viewer.tenant == last.tenant
    ==> s.viewer.membership in last.decisions
  }

  /** What the loop knows about the change it is dispatching. */
  predicate DispatchSound(w: World) {
    && Distinct(w.targets)
    && (forall id :: id in w.closing ==> id !in w.targets)
    && (forall id :: id in w.subs ==> w.subs[id].since <= |w.history|)
    && (w.targets != [] ==>
          && w.history != []
          && (forall id :: id in w.targets ==> TargetSound(w, id))
          && (forall id :: id in w.subs ==> Reached(w, id)))
  }

  /** A stream has got a prefix of what it was authorised for, and all of it while registered. */
  predicate StreamSound(w: World, id: SubId)
    requires id in w.subs
  {
    var s := w.subs[id];
    var got := s.received + s.buffer;
    && |s.buffer| <= SUBSCRIPTION_BUFFER
    && got <= Authorised(w.history, s.since, s.viewer)
    && (if id in w.targets then
          w.history != [] && got <= Authorised(w.history[..|w.history| - 1], s.since, s.viewer)
          && (s.registered ==> got == Authorised(w.history[..|w.history| - 1], s.since, s.viewer))
        else s.registered ==> got == Authorised(w.history, s.since, s.viewer))
  }

  predicate StreamsSound(w: World) {
    DispatchSound(w) && forall id :: id in w.subs ==> StreamSound(w, id)
  }

  /** A step that leaves the dispatch and a stream's content alone leaves the stream sound. */
  lemma UntouchedStream(w: World, after: World, id: SubId)
    requires id in w.subs && StreamSound(w, id)
    requires id in after.subs && after.history == w.history
    requires after.targets == w.targets || (after.targets == [] && (id in w.targets ==> !after.subs[id].registered))
    requires var s, t := w.subs[id], after.subs[id];
             && t.received + t.buffer == s.received + s.buffer && |t.buffer| <= |s.buffer|
             && t.since == s.since && t.viewer == s.viewer && (t.registered ==> s.registered)
    ensures StreamSound(after, id)
  {
  }

  /** Every step but a registration, a dispatch and a delivery. */
  predicate Quiet(s: Step) { !s.Register? && !s.Dispatch? && !s.Deliver? }

  lemma QuietDispatchState(w: World, s: Step)
    requires Enabled(w, s) && Quiet(s)
    ensures var after := Apply(w, s);
            after.history == w.history && (after.targets == w.targets || (s.AcquireFails? && after.targets == []))
  {
    hide Dispatched, Delivered, Announced, Polled, Unregister;
  }

  lemma QuietContent(w: World, s: Step, id: SubId)
    requires Enabled(w, s) && Quiet(s) && id in w.subs
    ensures id in Apply(w, s).subs
    ensures var before, after := w.subs[id], Apply(w, s).subs[id];
            && after.received + after.buffer == before.received + before.buffer && |after.buffer| <= |before.buffer|
            && after.since == before.since && after.viewer == before.viewer
            && (after.registered ==> before.registered)
            && (s.AcquireFails? && id in w.targets ==> !after.registered)
  {
    hide Dispatched, Delivered, Announced, Polled;
    if s.Poll? { PollKeepsContent(w, s.id); }
  }

  lemma PollKeepsContent(w: World, id: SubId)
    requires id in w.subs
    ensures var before, after := w.subs[id], Polled(w, id);
            && after.received + after.buffer == before.received + before.buffer && |after.buffer| <= |before.buffer|
            && after.since == before.since && after.viewer == before.viewer && after.registered == before.registered
  {
  }

  lemma QuietStep(w: World, s: Step, id: SubId)
    requires StreamsSound(w) && Enabled(w, s) && Quiet(s) && id in w.subs
    ensures id in Apply(w, s).subs && StreamSound(Apply(w, s), id)
  {
    hide Apply, Enabled, Quiet, StreamSound, DispatchSound;
    QuietDispatchState(w, s);
    QuietContent(w, s, id);
    UntouchedStream(w, Apply(w, s), id);
  }

  /** A quiet step may unregister streams, but a target only when its reader is gone. */
  lemma QuietSubs(w: World, s: Step, id: SubId)
    requires Enabled(w, s) && Quiet(s) && id in w.subs
    requires w.closing != [] ==> w.closing[0] !in w.targets
    ensures var after := Apply(w, s);
            && id in after.subs && after.subs[id].since == w.subs[id].since
            && after.subs[id].viewer == w.subs[id].viewer
            && (after.subs[id].registered ==> w.subs[id].registered)
            && (id in after.targets && w.subs[id].registered ==> after.subs[id].registered || after.subs[id].dropped)
            && (w.subs[id].dropped ==> after.subs[id].dropped)
  {
    hide Dispatched, Delivered, Announced;
    match s
    case Poll(_) => hide Unregister;
    case NotifyWaiters => hide Unregister, Polled;
    case SetFlag => hide Unregister, Polled;
    case CloseAll => hide Polled;
    case AcquireFails => hide Polled;
    case _ => hide Unregister, Polled;
  }

  lemma QuietKeys(w: World, s: Step)
    requires Enabled(w, s) && Quiet(s)
    ensures Apply(w, s).subs.Keys == w.subs.Keys
  {
    hide Dispatched, Delivered, Announced, Polled;
  }

  lemma QuietDispatch(w: World, s: Step)
    requires DispatchSound(w) && Enabled(w, s) && Quiet(s)
    ensures DispatchSound(Apply(w, s)) && Apply(w, s).subs.Keys == w.subs.Keys
  {
    hide Dispatched, Delivered, Announced, Unregister, Polled, TargetSound, Reached;
    var after := Apply(w, s);
    QuietKeys(w, s);
    assert after.history == w.history && (after.targets == w.targets || after.targets == []);
    assert forall id :: id in after.closing ==> id in w.closing;
    QuietKeeps(w, s);
  }

  lemma QuietKeeps(w: World, s: Step)
    requires DispatchSound(w) && Enabled(w, s) && Quiet(s)
    ensures var after := Apply(w, s);
            && (forall id :: id in after.subs && id in w.subs ==> after.subs[id].since == w.subs[id].since)
            && (after.targets != [] && after.history == w.history && after.targets == w.targets ==>
                  && (forall id :: id in w.targets ==> TargetSound(after, id))
                  && (forall id :: id in after.subs && id in w.subs ==> Reached(after, id)))
  {
    hide Apply, Enabled, Quiet;
    var after := Apply(w, s);
    forall id | id in w.subs
      ensures id in after.subs && after.subs[id].since == w.subs[id].since
      ensures after.targets != [] && after.history == w.history && after.targets == w.targets ==>
                Reached(after, id) && (id in w.targets ==> TargetSound(after, id))
    {
      QuietSubs(w, s, id);
      assert w.targets != [] ==> Reached(w, id) && (id in w.targets ==> TargetSound(w, id));
    }
  }

  lemma RegisterStep(w: World, s: Step)
    requires StreamsSound(w) && Enabled(w, s) && s.Register?
    ensures StreamsSound(Apply(w, s))
  {
    var after := Apply(w, s);
    forall id | id in after.subs ensures StreamSound(after, id) {
      if id != s.id {
        UntouchedStream(w, after, id);
      }
    }
  }

  lemma DispatchStep(w: World)
    requires StreamsSound(w) && Enabled(w, Dispatch)
    ensures StreamsSound(Dispatched(w))
  {
    hide InOrder, StreamSound;
    var after := Dispatched(w);
    forall id | id in after.subs ensures StreamSound(after, id) {
      if after.history == w.history {
        UntouchedStream(w, after, id);
      } else {
        DispatchedStream(w, id);
      }
    }
  }

  lemma DispatchedStream(w: World, id: SubId)
    requires StreamsSound(w) && Enabled(w, Dispatch) && id in w.subs && Dispatched(w).history != w.history
    ensures StreamSound(Dispatched(w), id)
  {
    hide InOrder, Authorised, Distinct, TargetSound, Reached;
    var after := Dispatched(w);
    var s := w.subs[id];
    assert StreamSound(w, id) && id !in w.targets;
    UndecidedAddsNothing(w.history, after.history[|w.history|], s.since, s.viewer);
    assert after.history[..|w.history|] == w.history;
  }

  lemma DeliverHistory(w: World, answer: Decision)
    requires DispatchSound(w) && Enabled(w, Deliver(answer))
    ensures var to := w.subs[w.targets[0]];
            var after := Delivered(w, answer);
            && w.targets != [] && w.history != [] && w.targets[0] in w.subs
            && after.history == Noted(w.history, to.viewer.membership, Answer(w, answer))
            && after.history[..|w.history| - 1] == w.history[..|w.history| - 1]
            && |after.history| == |w.history|
            && TargetSound(w, w.targets[0])
            && (to.viewer.membership in w.history[|w.history| - 1].decisions ==>
                  w.history[|w.history| - 1].decisions[to.viewer.membership] == Answer(w, answer))
  {
    hide Sent, Reached, Distinct;
  }

  /** What the delivery's answer makes of the changes authorised for another stream. */
  lemma DeliverAuthorises(w: World, answer: Decision, id: SubId)
    requires DispatchSound(w) && Enabled(w, Deliver(answer)) && id in w.subs
    ensures var s := w.subs[id];
            var after := Delivered(w, answer);
            var last := w.history[|w.history| - 1];
            var before := Authorised(w.history[..|w.history| - 1], s.since, s.viewer);
            && after.history[..|w.history| - 1] == w.history[..|w.history| - 1]
            && |after.history| == |w.history|
            && Authorised(w.history, s.since, s.viewer) <= Authorised(after.history, s.since, s.viewer)
            && (id == w.targets[0] ==>
                  Authorised(after.history, s.since, s.viewer)
                    == before + (if Answer(w, answer) == Allowed then [last.resource] else []))
            && (id !in w.targets && s.registered ==>
                  Authorised(after.history, s.since, s.viewer) == Authorised(w.history, s.since, s.viewer))
  {
    hide Delivered, Answer, Noted, Distinct, Enabled;
    var s := w.subs[id];
    DeliverHistory(w, answer);
    assert Reached(w, id);
    if s.since < |w.history| {
      NotedAuthorises(w.history, w.subs[w.targets[0]].viewer.membership, Answer(w, answer), s.since, s.viewer);
    }
  }

  lemma TargetsLeft(targets: seq<SubId>, id: SubId)
    requires targets != [] && Distinct(targets)
    ensures id in targets[1..] <==> id in targets && id != targets[0]
  {
    assert targets == [targets[0]] + targets[1..];
  }

  lemma TargetIsLive(w: World, id: SubId)
    requires w.history != [] && TargetSound(w, id)
    ensures id in w.subs && (w.subs[id].registered || w.subs[id].dropped)
  {
  }

  lemma DeliverToTarget(w: World, answer: Decision)
    requires StreamsSound(w) && Enabled(w, Deliver(answer))
    ensures StreamSound(Delivered(w, answer), w.targets[0])
  {
    hide Answer, Noted, Authorised, Reached, Distinct, TargetSound;
    var id := w.targets[0];
    DeliverHistory(w, answer);
    DeliverAuthorises(w, answer, id);
    TargetsLeft(w.targets, id);
    TargetIsLive(w, id);
    assert StreamSound(w, id);
  }

  lemma DeliverToOthers(w: World, answer: Decision, id: SubId)
    requires StreamsSound(w) && Enabled(w, Deliver(answer)) && id in w.subs && id != w.targets[0]
    ensures StreamSound(Delivered(w, answer), id)
  {
    hide Answer, Noted, Authorised, Reached, Distinct, TargetSound, Sent;
    DeliverHistory(w, answer);
    DeliverAuthorises(w, answer, id);
    TargetsLeft(w.targets, id);
    assert StreamSound(w, id);
    assert Delivered(w, answer).subs[id] == w.subs[id];
  }

  lemma DeliverStream(w: World, answer: Decision, id: SubId)
    requires StreamsSound(w) && Enabled(w, Deliver(answer)) && id in w.subs
    ensures id in Delivered(w, answer).subs && StreamSound(Delivered(w, answer), id)
  {
    hide StreamSound, StreamsSound;
    if id == w.targets[0] {
      DeliverToTarget(w, answer);
    } else {
      DeliverToOthers(w, answer, id);
    }
  }

  lemma DeliverDispatch(w: World, answer: Decision)
    requires DispatchSound(w) && Enabled(w, Deliver(answer))
    ensures DispatchSound(Delivered(w, answer)) && Delivered(w, answer).subs.Keys == w.subs.Keys
  {
    hide Authorised;
    assert w.targets == [w.targets[0]] + w.targets[1..];
    var after := Delivered(w, answer);
    assert Distinct(after.targets) && w.targets[0] !in after.targets;
    forall id | id in after.targets ensures TargetSound(after, id) {
      assert TargetSound(w, id);
    }
    forall id | id in w.subs ensures Reached(after, id) {
      assert Reached(w, id);
    }
  }

  lemma StreamsSoundStep(w: World, s: Step)
    requires StreamsSound(w)
    ensures StreamsSound(Next(w, s))
  {
    hide Enabled, DispatchSound, StreamSound, Dispatched, Delivered;
    if Enabled(w, s) {
      match s
      case Register(_, _) => RegisterStep(w, s);
      case Dispatch => DispatchStep(w);
      case Deliver(answer) =>
        DeliverDispatch(w, answer);
        forall id | id in w.subs ensures id in Delivered(w, answer).subs && StreamSound(Delivered(w, answer), id) {
          DeliverStream(w, answer, id);
        }
      case _ =>
        QuietDispatch(w, s);
        forall id | id in w.subs ensures id in Apply(w, s).subs && StreamSound(Apply(w, s), id) {
          QuietStep(w, s, id);
        }
    }
  }

  lemma {:induction false} StreamsSoundRun(w: World, steps: seq<Step>)
    requires StreamsSound(w)
    ensures StreamsSound(Run(w, steps))
    decreases |steps|
  {
    hide Next, StreamsSound;
    if steps != [] {
      StreamsSoundStep(w, steps[0]);
      StreamsSoundRun(Next(w, steps[0]), steps[1..]);
    }
  }

  /**
   In every interleaving a stream has received and buffered a prefix of the changes authorised
   for it since it registered; while it is registered and nothing is being dispatched, all of
   them. It never buffers more than the bound.
   */
  lemma NoGaps(steps: seq<Step>, id: SubId)
    requires id in Run(START, steps).subs
    ensures var w := Run(START, steps);
            var s := w.subs[id];
            var changes := Authorised(w.history, s.since, s.viewer);
            && |s.buffer| <= SUBSCRIPTION_BUFFER
            && s.received + s.buffer <= changes
            && (s.registered && w.targets == [] ==> s.received + s.buffer == changes)
  {
    StreamsSoundRun(START, steps);
  }
}
