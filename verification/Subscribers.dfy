/**
 The hub's subscriber lists, updated in place, and the loop that carries one change to them.
 What it leaves of every subscription is what the stream protocol's own steps leave.
 */
module Subscribers {
  import opened Base
  import opened Hub

  /** One entry of a tenant's list; its channel and close signal are kept by id in `subs`. */
  datatype Subscriber = Subscriber(id: SubId, membership: MembershipId)

  function Kept(list: seq<Subscriber>, keep: Subscriber -> bool): (r: seq<Subscriber>)
    ensures forall s :: s in r <==> s in list && keep(s)
  {
    if list == [] then []
    else Kept(list[..|list| - 1], keep) + if keep(list[|list| - 1]) then [list[|list| - 1]] else []
  }

  predicate NoDuplicates(list: seq<Subscriber>) {
    forall i, j :: 0 <= i < j < |list| ==> list[i].id != list[j].id
  }

  lemma {:induction false} KeptHasNoDuplicates(list: seq<Subscriber>, keep: Subscriber -> bool)
    requires NoDuplicates(list)
    ensures NoDuplicates(Kept(list, keep))
  {
    if list != [] {
      var before := list[..|list| - 1];
      KeptHasNoDuplicates(before, keep);
      assert forall i :: 0 <= i < |Kept(before, keep)| ==> Kept(before, keep)[i] in before;
    }
  }

  /** A subscription once `close` has run: flag set, waiters woken. */
  function Closed(s: Sub): Sub {
    s.(closed := true, signalled := true, woken := s.woken || s.reading != Idle)
  }

  /** A subscription once a change with this answer has been carried to it. */
  function Carried(s: Sub, answer: Decision, resource: Resource): Sub {
    if answer == NoAccess then Closed(s).(registered := false) else Sent(s, answer, resource)
  }

  /** The tenant's lists and the streams' own view of which of them are registered agree. */
  predicate Agree(subscribers: map<TenantId, seq<Subscriber>>, subs: map<SubId, Sub>) {
    && (forall t :: t in subscribers ==> subscribers[t] != [] && NoDuplicates(subscribers[t]))
    && (forall t :: t in subscribers ==> forall s :: s in subscribers[t] ==>
          s.id in subs && subs[s.id].viewer == Viewer(t, s.membership) && subs[s.id].registered)
    && (forall id :: id in subs && subs[id].registered ==>
          && subs[id].viewer.tenant in subscribers
          && Subscriber(id, subs[id].viewer.membership) in subscribers[subs[id].viewer.tenant])
  }

  /** `subs` with the senders of the tenant's entries that fail `keep` dropped. */
  function Dropped(subs: map<SubId, Sub>, tenant: TenantId, keep: Subscriber -> bool): map<SubId, Sub> {
    map id | id in subs ::
      if subs[id].viewer.tenant == tenant && !keep(Subscriber(id, subs[id].viewer.membership))
      then subs[id].(registered := false) else subs[id]
  }

  /** One of the first `n` entries is the subscription's. */
  predicate Among(id: SubId, list: seq<Subscriber>, n: nat)
    requires n <= |list|
  {
    exists j :: 0 <= j < n && list[j].id == id
  }

  /** One of the first `n` entries is the subscription's and matches. */
  predicate Matched(id: SubId, list: seq<Subscriber>, n: nat, matches: Subscriber -> bool)
    requires n <= |list|
  {
    exists j :: 0 <= j < n && list[j].id == id && matches(list[j])
  }

  lemma MatchedNext(list: seq<Subscriber>, n: nat, matches: Subscriber -> bool)
    requires n < |list|
    ensures forall id :: Matched(id, list, n + 1, matches)
                     <==> Matched(id, list, n, matches) || (id == list[n].id && matches(list[n]))
  {
  }

  lemma ListedAreRegistered(subscribers: map<TenantId, seq<Subscriber>>, subs: map<SubId, Sub>, tenant: TenantId, id: SubId)
    requires Agree(subscribers, subs) && id in subs
    ensures subs[id].registered && subs[id].viewer.tenant == tenant
            <==> tenant in subscribers && Among(id, subscribers[tenant], |subscribers[tenant]|)
  {
  }

  /** Closing one subscription, flag first, in the stream protocol leaves it closed and unregistered. */
  lemma CloseSteps(w: World)
    requires w.closing != [] && w.closing[0] in w.subs && !w.flagged
    ensures var after := Next(Next(w, SetFlag), NotifyWaiters);
            after == w.(subs := w.subs[w.closing[0] := Closed(w.subs[w.closing[0]]).(registered := false)],
                        closing := w.closing[1..])
  {
    hide Registered, Unregister, Dispatched, Delivered, Announced, Polled;
  }

  /** Delivering one change in the stream protocol leaves the subscription as the loop here leaves it. */
  lemma DeliverSteps(w: World, answer: Decision)
    requires Enabled(w, Deliver(answer))
    ensures var d := Answer(w, answer);
            var id := w.targets[0];
            var sent := Next(w, Deliver(answer));
            var after := if d == NoAccess then Next(Next(sent, SetFlag), NotifyWaiters) else sent;
            && after.subs == w.subs[id := Carried(w.subs[id], d, w.history[|w.history| - 1].resource)]
            && after.targets == w.targets[1..] && after.closing == []
  {
    hide Registered, Unregister, Dispatched, Announced, Polled;
    var sent := Next(w, Deliver(answer));
    if Answer(w, answer) == NoAccess {
      CloseSteps(sent);
    }
  }

  /** The tenant's entries, none when it has no list. */
  function ListOf(subscribers: map<TenantId, seq<Subscriber>>, tenant: TenantId): seq<Subscriber> {
    if tenant in subscribers then subscribers[tenant] else []
  }

  class HubInner {
    var subscribers: map<TenantId, seq<Subscriber>>
    var subs: map<SubId, Sub>

    ghost predicate Valid()
      reads this
    {
      Agree(subscribers, subs)
    }

    constructor ()
      ensures Valid() && subs == map[]
    {
      subscribers := map[];
      subs := map[];
    }

    method Subscribe(id: SubId, viewer: Viewer, since: nat)
      requires Valid() && id !in subs
      modifies this
      ensures Valid()
      ensures subs == old(subs)[id := Sub(viewer, since, true, false, false, [], [], false, false, Idle, false)]
    {
      var list := if viewer.tenant in subscribers then subscribers[viewer.tenant] else [];
      subscribers := subscribers[viewer.tenant := list + [Subscriber(id, viewer.membership)]];
      subs := subs[id := Sub(viewer, since, true, false, false, [], [], false, false, Idle, false)];
    }

    method Retain(tenant: TenantId, keep: Subscriber -> bool)
      requires Valid()
      modifies this
      ensures Valid()
      ensures subs == Dropped(old(subs), tenant, keep)
      ensures forall t :: ListOf(subscribers, t) ==
                if t == tenant then Kept(ListOf(old(subscribers), t), keep) else ListOf(old(subscribers), t)
    {
      if tenant in subscribers {
        KeptHasNoDuplicates(subscribers[tenant], keep);
        var list := Kept(subscribers[tenant], keep);
        subscribers := if list == [] then subscribers - {tenant} else subscribers[tenant := list];
      }
      subs := Dropped(subs, tenant, keep);
    }

    method Remove(tenant: TenantId, id: SubId)
      requires Valid()
      modifies this
      ensures Valid()
      ensures subs == Dropped(old(subs), tenant, (s: Subscriber) => s.id != id)
    {
      Retain(tenant, (s: Subscriber) => s.id != id);
    }

    method CloseAll()
      requires Valid()
      modifies this
      ensures Valid() && subs == Unregister(old(subs), old(subs).Keys)
      ensures forall t :: ListOf(subscribers, t) == []
    {
      subs := Unregister(subs, subs.Keys);
      subscribers := map[];
    }

    /** Raises the close signal of every matching entry. */
    method CloseEach(list: seq<Subscriber>, matches: Subscriber -> bool)
      requires Valid() && forall s :: s in list ==> s.id in subs
      modifies `subs
      ensures Valid() && subs.Keys == old(subs).Keys
      ensures forall id :: id in subs ==>
                subs[id] == if Matched(id, list, |list|, matches) then Closed(old(subs)[id]) else old(subs)[id]
    {
      hide Agree;
      for i := 0 to |list|
        invariant Valid() && subs.Keys == old(subs).Keys
        invariant forall id :: id in subs ==>
                    subs[id] == if Matched(id, list, i, matches) then Closed(old(subs)[id]) else old(subs)[id]
      {
        MatchedNext(list, i, matches);
        if matches(list[i]) {
          assert list[i] in list;
          CloseOne(list[i].id);
        }
      }
    }

    method CloseOne(id: SubId)
      requires Valid() && id in subs
      modifies `subs
      ensures Valid() && subs == old(subs)[id := Closed(old(subs)[id])]
    {
      subs := subs[id := Closed(subs[id])];
    }

    /** Signals every matching entry, then drops it. */
    method CloseAndRemove(tenant: TenantId, matches: Subscriber -> bool)
      requires Valid()
      modifies this
      ensures Valid() && subs.Keys == old(subs).Keys
      ensures forall id :: id in subs ==>
                var s := old(subs)[id];
                subs[id] == if s.registered && s.viewer.tenant == tenant && matches(Subscriber(id, s.viewer.membership))
                            then Closed(s).(registered := false) else s
    {
      hide NoDuplicates;
      if tenant in subscribers {
        CloseEach(subscribers[tenant], matches);
      }
      Retain(tenant, (s: Subscriber) => !matches(s));
    }

    method TrySend(id: SubId, resource: Resource) returns (ok: bool)
      requires Valid() && id in subs
      modifies `subs
      ensures Valid()
      ensures ok == (!old(subs)[id].dropped && |old(subs)[id].buffer| < SUBSCRIPTION_BUFFER)
      ensures subs == if ok then old(subs)[id := old(subs)[id].(buffer := old(subs)[id].buffer + [resource])] else old(subs)
    {
      var s := subs[id];
      ok := !s.dropped && |s.buffer| < SUBSCRIPTION_BUFFER;
      if ok {
        subs := subs[id := s.(buffer := s.buffer + [resource])];
      }
    }

    /** Carries one change to one entry, by the answer for its membership. */
    method Carry(tenant: TenantId, id: SubId, answer: Decision, resource: Resource)
      requires Valid() && id in subs && subs[id].registered && subs[id].viewer.tenant == tenant
      modifies this
      ensures Valid() && subs == old(subs)[id := Carried(old(subs)[id], answer, resource)]
    {
      match answer
      case Allowed =>
        var sent := TrySend(id, resource);
        if !sent {
          Remove(tenant, id);
        }
      case NoAccess =>
        subs := subs[id := Closed(subs[id])];
        Remove(tenant, id);
      case Unreadable =>
      case Failed => Remove(tenant, id);
    }

    /**
     Carries one change to every subscription registered when it starts, asking for each
     membership's answer once. `acquired` is whether a connection could be had to ask with.
     */
    method Dispatch(tenant: TenantId, resource: Resource, acquired: bool, answers: MembershipId -> Decision)
      requires Valid()
      modifies this
      ensures Valid() && subs.Keys == old(subs).Keys
      ensures forall id :: id in subs ==>
                var s := old(subs)[id];
                subs[id] == if !s.registered || s.viewer.tenant != tenant then s
                            else if acquired then Carried(s, answers(s.viewer.membership), resource)
                            else s.(registered := false)
      ensures forall id :: id in subs && old(subs)[id].registered && old(subs)[id].viewer.tenant == tenant && acquired ==>
                var s, t := old(subs)[id], subs[id];
                match answers(s.viewer.membership)
                case Allowed =>
                  if !s.dropped && |s.buffer| < 64 then t == s.(buffer := s.buffer + [resource])
                  else t == s.(registered := false)
                case NoAccess =>
                  t == s.(registered := false, closed := true, signalled := true, woken := s.woken || s.reading != Idle)
                case Unreadable => t == s
                case Failed => t == s.(registered := false)
    {
      forall id | id in subs
        ensures subs[id].registered && subs[id].viewer.tenant == tenant
                <==> tenant in subscribers && Among(id, subscribers[tenant], |subscribers[tenant]|)
      {
        ListedAreRegistered(subscribers, subs, tenant, id);
      }
      var targets := if tenant in subscribers then subscribers[tenant] else [];
      if acquired {
        CarryToEach(tenant, targets, resource, answers);
      } else {
        RemoveEach(tenant, targets);
      }
    }

    method RemoveEach(tenant: TenantId, targets: seq<Subscriber>)
      requires Valid()
      modifies this
      ensures Valid() && subs.Keys == old(subs).Keys
      ensures forall id :: id in subs ==>
                subs[id] == if Among(id, targets, |targets|) && old(subs)[id].viewer.tenant == tenant
                            then old(subs)[id].(registered := false) else old(subs)[id]
    {
      hide Agree;
      for i := 0 to |targets|
        invariant Valid() && subs.Keys == old(subs).Keys
        invariant forall id :: id in subs ==>
                    subs[id] == if Among(id, targets, i) && old(subs)[id].viewer.tenant == tenant
                                then old(subs)[id].(registered := false) else old(subs)[id]
      {
        Remove(tenant, targets[i].id);
      }
    }

    /** The loop of a dispatch over the entries it took from the list. */
    method CarryToEach(tenant: TenantId, targets: seq<Subscriber>, resource: Resource, answers: MembershipId -> Decision)
      requires Valid() && NoDuplicates(targets)
      requires forall s :: s in targets ==>
                 s.id in subs && subs[s.id].registered && subs[s.id].viewer == Viewer(tenant, s.membership)
      modifies this
      ensures Valid() && subs.Keys == old(subs).Keys
      ensures forall id :: id in subs ==>
                subs[id] == if Among(id, targets, |targets|)
                            then Carried(old(subs)[id], answers(old(subs)[id].viewer.membership), resource)
                            else old(subs)[id]
    {
      hide Agree, Carried;
      var decisions: map<MembershipId, Decision> := map[];
      for i := 0 to |targets|
        invariant Valid() && subs.Keys == old(subs).Keys
        invariant forall m :: m in decisions ==> decisions[m] == answers(m)
        invariant forall id :: id in subs ==>
                    subs[id] == if Among(id, targets, i)
                                then Carried(old(subs)[id], answers(old(subs)[id].viewer.membership), resource)
                                else old(subs)[id]
      {
        var entry := targets[i];
        assert entry in targets && !Among(entry.id, targets, i);
        if entry.membership !in decisions {
          decisions := decisions[entry.membership := answers(entry.membership)];
        }
        Carry(tenant, entry.id, decisions[entry.membership], resource);
        assert forall id :: Among(id, targets, i + 1) <==> id == entry.id || Among(id, targets, i);
      }
    }
  }
}
