/** Data keys held in memory per session: a map updated in place, and the flow that fills it. */
module KeyCache {
  import opened Base

  type Session = nat
  type TenantId = nat
  type Key = nat
  type WrappedKey = nat
  type Instant = int

  datatype Unit =
    | Record(tenant: TenantId)
    | Document(tenant: TenantId, document: nat)
    | Chat(tenant: TenantId, month: nat)
    | Messages(tenant: TenantId)
  {
    /** Whether the unit has a row in the table of wrapped keys. */
    predicate Stored() { !Messages? }
  }

  datatype Slot = Slot(session: Session, unit: Unit)

  datatype Entry = Entry(key: Key, lastActivity: Instant)

  /** The key service: what a wrapped key of a unit unwraps to, if it does. */
  datatype Keys = Keys(unwrap: (Unit, WrappedKey) -> Option<Key>)

  datatype Error = NoDataKey | KeyService

  function Touched(entries: map<Slot, Entry>, session: Session, now: Instant): map<Slot, Entry> {
    map s | s in entries :: if s.session == session then entries[s].(lastActivity := now) else entries[s]
  }

  function WithoutSession(entries: map<Slot, Entry>, session: Session): map<Slot, Entry> {
    map s | s in entries && s.session != session :: entries[s]
  }

  function Swept(entries: map<Slot, Entry>, now: Instant, idle: int): map<Slot, Entry> {
    map s | s in entries && now - entries[s].lastActivity < idle :: entries[s]
  }

  class Cache {
    const keys: Keys
    const idle: int
    var entries: map<Slot, Entry>

    constructor (keys: Keys, idle: int)
      ensures this.keys == keys && this.idle == idle && entries == map[]
    {
      this.keys, this.idle := keys, idle;
      entries := map[];
    }

    /** The cached key, marked used; or the unwrapped one, which is cached. */
    method Get(session: Session, unit: Unit, wrapped: WrappedKey, now: Instant) returns (r: Result<Key, Error>)
      modifies `entries
      ensures var s := Slot(session, unit);
              var before := old(entries);
              if s in before then
                r == Ok(before[s].key) && entries == before[s := before[s].(lastActivity := now)]
              else
                match keys.unwrap(unit, wrapped)
                case Some(k) => r == Ok(k) && entries == before[s := Entry(k, now)]
                case None => r == Err(KeyService) && entries == before
    {
      var s := Slot(session, unit);
      if s in entries {
        entries := entries[s := entries[s].(lastActivity := now)];
        return Ok(entries[s].key);
      }
      var key := keys.unwrap(unit, wrapped);
      if key.None? { return Err(KeyService); }
      Put(session, unit, key.value, now);
      return Ok(key.value);
    }

    method Put(session: Session, unit: Unit, key: Key, now: Instant)
      modifies `entries
      ensures entries == old(entries)[Slot(session, unit) := Entry(key, now)]
    {
      entries := entries[Slot(session, unit) := Entry(key, now)];
    }

    method TouchSession(session: Session, now: Instant)
      modifies `entries
      ensures entries == Touched(old(entries), session, now)
      ensures entries.Keys == old(entries).Keys
      ensures forall s :: s in entries ==>
                entries[s] == if s.session == session then Entry(old(entries)[s].key, now) else old(entries)[s]
    {
      ghost var before := entries;
      var todo := entries.Keys;
      while todo != {}
        invariant todo <= entries.Keys == before.Keys
        invariant forall s :: s in before ==>
                    entries[s] == if s !in todo && s.session == session then before[s].(lastActivity := now) else before[s]
        decreases todo
      {
        var s :| s in todo;
        if s.session == session {
          entries := entries[s := entries[s].(lastActivity := now)];
        }
        todo := todo - {s};
      }
    }

    method ReleaseSession(session: Session)
      modifies `entries
      ensures entries == WithoutSession(old(entries), session)
      ensures forall s :: s in entries <==> s in old(entries) && s.session != session
      ensures forall s :: s in entries ==> entries[s] == old(entries)[s]
    {
      entries := map s | s in entries && s.session != session :: entries[s];
    }

    method ReleaseDocument(session: Session, tenant: TenantId, document: nat)
      modifies `entries
      ensures entries == old(entries) - {Slot(session, Document(tenant, document))}
    {
      var gone := Document(tenant, document);
      entries := map s | s in entries && !(s.session == session && s.unit == gone) :: entries[s];
    }

    /** Drops what has been idle too long, and says how many entries that was. */
    method Sweep(now: Instant) returns (gone: nat)
      modifies `entries
      ensures forall s :: s in entries <==> s in old(entries) && now - old(entries)[s].lastActivity < idle
      ensures forall s :: s in entries ==> entries[s] == old(entries)[s]
      ensures entries == Swept(old(entries), now, idle)
      ensures gone == |old(entries)| - |entries|
    {
      var before := |entries|;
      var kept := map s | s in entries && now - entries[s].lastActivity < idle :: entries[s];
      SmallerKeys(kept.Keys, entries.Keys);
      assert |kept| == |kept.Keys| && |entries| == |entries.Keys|;
      entries := kept;
      gone := before - |entries|;
    }

    /**
     One `data_key` call that nothing runs between the statements of: `row` is the unit's
     stored wrapped key, `minted` the pair the key service gives if a new one is needed. It
     fails, and leaves the cache alone, exactly when there is a row that does not unwrap.
     */
    method DataKey(session: Session, unit: Unit, row: Option<WrappedKey>, minted: (Key, WrappedKey), now: Instant)
      returns (r: Result<Key, Error>, stored: Option<WrappedKey>)
      requires keys.unwrap(unit, minted.1) == Some(minted.0)
      requires Slot(session, unit) in entries ==> row.Some? && keys.unwrap(unit, row.value) == Some(entries[Slot(session, unit)].key)
      modifies `entries
      ensures !unit.Stored() ==> r == Err(NoDataKey) && stored == row && entries == old(entries)
      ensures unit.Stored() ==> stored == if row.Some? then row else Some(minted.1)
      ensures unit.Stored() ==> (r.Err? <==> row.Some? && keys.unwrap(unit, row.value).None?)
      ensures r.Err? ==> r.error == (if unit.Stored() then KeyService else NoDataKey) && entries == old(entries)
      ensures unit.Stored() && r.Ok? ==>
                && keys.unwrap(unit, stored.value) == Some(r.value)
                && entries == old(entries)[Slot(session, unit) := Entry(r.value, now)]
    {
      if !unit.Stored() { return Err(NoDataKey), row; }
      stored := row;
      if row.Some? {
        r := Get(session, unit, row.value, now);
        return;
      }
      stored := Some(minted.1);
      Put(session, unit, minted.0, now);
      r := Ok(minted.0);
    }
  }

  lemma {:induction false} SmallerKeys<T>(a: set<T>, b: set<T>)
    requires a <= b
    ensures |a| <= |b|
  {
    if a != {} {
      var x :| x in a;
      SmallerKeys(a - {x}, b - {x});
    }
  }

  /** A released session holds no key; every other one holds what it held. */
  lemma ReleasedSpec(entries: map<Slot, Entry>, session: Session, s: Slot)
    ensures s in WithoutSession(entries, session) <==> s in entries && s.session != session
    ensures s in WithoutSession(entries, session) ==> WithoutSession(entries, session)[s] == entries[s]
  {
  }

  /** A swept cache holds just the entries used within the idle time. */
  lemma SweptSpec(entries: map<Slot, Entry>, session: Session, now: Instant, later: Instant, idle: int)
    requires 0 < idle
    ensures Swept(Swept(entries, now, idle), now, idle) == Swept(entries, now, idle)
    ensures later - now < idle ==>
              forall s :: s in entries && s.session == session ==> s in Swept(Touched(entries, session, now), later, idle)
    ensures later - now >= idle ==>
              forall s :: s in Swept(Touched(entries, session, now), later, idle) ==> s.session != session
  {
  }
}
