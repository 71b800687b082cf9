/**
 Many `data_key` calls at once, each inside a transaction of its caller: a stored row is seen
 by others when that transaction commits, and an insert of the same unit waits for it.
 */
module KeyAgreement {
  import opened Base
  import opened KeyCache

  type CallId = nat
  type Tx = nat

  /** Where a call is between its awaits. */
  datatype Phase =
    | Starting
    | Minting
    | Storing(key: Key, wrapped: WrappedKey)
    | Stored(key: Key, wrapped: WrappedKey, winner: WrappedKey)
    | Getting(wrapped: WrappedKey)
    | Unwrapping(wrapped: WrappedKey)
    | Returned(key: Key)
    | Failed

  datatype Call = Call(session: Session, unit: Unit, tx: Tx, phase: Phase)

  /** A row inserted by a transaction that has not ended. */
  datatype Uncommitted = Uncommitted(tx: Tx, wrapped: WrappedKey)

  datatype World = World(rows: map<Unit, WrappedKey>, waiting: map<Unit, Uncommitted>,
                         entries: map<Slot, Entry>, calls: map<CallId, Call>, now: Instant)

  const START := World(map[], map[], map[], map[], 0)

  datatype Step =
    | Begin(call: CallId, session: Session, unit: Unit, tx: Tx)
    | Load(call: CallId)
    | Mint(call: CallId, key: Key, wrapped: WrappedKey)
    | Store(call: CallId)
    | Conclude(call: CallId)
    | Look(call: CallId)
    | Unwrap(call: CallId)
    | Commit(tx: Tx)
    | Rollback(tx: Tx)
    | Touch(session: Session)
    | Release(session: Session)
    | ReleaseDocument(session: Session, tenant: TenantId, document: nat)
    | SweepIdle(idle: int)
    | Tick(now: Instant)

  /** The row a transaction's statement sees for a unit. */
  function Visible(w: World, tx: Tx, unit: Unit): Option<WrappedKey> {
    if unit in w.rows then Some(w.rows[unit])
    else if unit in w.waiting && w.waiting[unit].tx == tx then Some(w.waiting[unit].wrapped)
    else None
  }

  predicate At(w: World, c: CallId, tag: Phase -> bool) { c in w.calls && tag(w.calls[c].phase) }

  predicate Enabled(w: World, keys: Keys, s: Step) {
    match s
    case Begin(c, _, unit, _) => c !in w.calls && unit.Stored()
    case Load(c) => At(w, c, (p: Phase) => p.Starting?)
    case Mint(c, key, wrapped) =>
      At(w, c, (p: Phase) => p.Minting?) && keys.unwrap(w.calls[c].unit, wrapped) == Some(key)
    case Store(c) =>
      && At(w, c, (p: Phase) => p.Storing?)
      && (w.calls[c].unit in w.waiting ==> w.waiting[w.calls[c].unit].tx == w.calls[c].tx)
    case Conclude(c) => At(w, c, (p: Phase) => p.Stored?)
    case Look(c) => At(w, c, (p: Phase) => p.Getting?)
    case Unwrap(c) => At(w, c, (p: Phase) => p.Unwrapping?)
    case Tick(now) => w.now <= now
    case _ => true
  }

  function Moved(w: World, c: CallId, p: Phase): map<CallId, Call>
    requires c in w.calls
  {
    w.calls[c := w.calls[c].(phase := p)]
  }

  function Put(w: World, c: CallId, key: Key): World
    requires c in w.calls
  {
    w.(entries := w.entries[Slot(w.calls[c].session, w.calls[c].unit) := Entry(key, w.now)], calls := Moved(w, c, Returned(key)))
  }

  function Apply(w: World, keys: Keys, s: Step): World
    requires Enabled(w, keys, s)
  {
    match s
    case Begin(c, session, unit, tx) => w.(calls := w.calls[c := Call(session, unit, tx, Starting)])
    case Load(c) =>
      var seen := Visible(w, w.calls[c].tx, w.calls[c].unit);
      w.(calls := Moved(w, c, if seen.Some? then Getting(seen.value) else Minting))
    case Mint(c, key, wrapped) => w.(calls := Moved(w, c, Storing(key, wrapped)))
    case Store(c) =>
      var call := w.calls[c];
      var seen := Visible(w, call.tx, call.unit);
      if seen.Some? then w.(calls := Moved(w, c, Phase.Stored(call.phase.key, call.phase.wrapped, seen.value)))
      else w.(waiting := w.waiting[call.unit := Uncommitted(call.tx, call.phase.wrapped)],
              calls := Moved(w, c, Phase.Stored(call.phase.key, call.phase.wrapped, call.phase.wrapped)))
    case Conclude(c) =>
      var p := w.calls[c].phase;
      if p.winner == p.wrapped then Put(w, c, p.key) else w.(calls := Moved(w, c, Getting(p.winner)))
    case Look(c) =>
      var slot := Slot(w.calls[c].session, w.calls[c].unit);
      if slot in w.entries then
        w.(entries := w.entries[slot := w.entries[slot].(lastActivity := w.now)],
           calls := Moved(w, c, Returned(w.entries[slot].key)))
      else w.(calls := Moved(w, c, Unwrapping(w.calls[c].phase.wrapped)))
    case Unwrap(c) =>
      (match keys.unwrap(w.calls[c].unit, w.calls[c].phase.wrapped)
       case None => w.(calls := Moved(w, c, Failed))
       case Some(key) => Put(w, c, key))
    case Commit(tx) =>
      w.(rows := map u | u in w.rows.Keys + (set x | x in w.waiting && w.waiting[x].tx == tx) ::
                   if u in w.rows then w.rows[u] else w.waiting[u].wrapped,
         waiting := map u | u in w.waiting && w.waiting[u].tx != tx :: w.waiting[u])
    case Rollback(tx) => w.(waiting := map u | u in w.waiting && w.waiting[u].tx != tx :: w.waiting[u])
    case Touch(session) => w.(entries := Touched(w.entries, session, w.now))
    case Release(session) => w.(entries := WithoutSession(w.entries, session))
    case ReleaseDocument(session, tenant, document) => w.(entries := w.entries - {Slot(session, Document(tenant, document))})
    case SweepIdle(idle) => w.(entries := Swept(w.entries, w.now, idle))
    case Tick(now) => w.(now := now)
  }

  function Next(w: World, keys: Keys, s: Step): World { if Enabled(w, keys, s) then Apply(w, keys, s) else w }

  function Run(w: World, keys: Keys, steps: seq<Step>): World
    decreases |steps|
  {
    if steps == [] then w else Run(Next(w, keys, steps[0]), keys, steps[1..])
  }

  // Agreement

  /** The one wrapped key of a unit: its row, or the row about to be committed. */
  function Official(w: World, unit: Unit): Option<WrappedKey> {
    if unit in w.rows then Some(w.rows[unit])
    else if unit in w.waiting then Some(w.waiting[unit].wrapped)
    else None
  }

  predicate IsKeyOf(w: World, keys: Keys, unit: Unit, key: Key) {
    Official(w, unit).Some? && keys.unwrap(unit, Official(w, unit).value) == Some(key)
  }

  predicate CallAgrees(w: World, keys: Keys, call: Call) {
    match call.phase
    case Storing(key, wrapped) => keys.unwrap(call.unit, wrapped) == Some(key)
    case Stored(key, wrapped, winner) => keys.unwrap(call.unit, wrapped) == Some(key) && Official(w, call.unit) == Some(winner)
    case Getting(wrapped) => Official(w, call.unit) == Some(wrapped)
    case Unwrapping(wrapped) => Official(w, call.unit) == Some(wrapped)
    case Returned(key) => IsKeyOf(w, keys, call.unit, key)
    case _ => true
  }

  predicate Agreement(w: World, keys: Keys) {
    && (forall s :: s in w.entries ==> IsKeyOf(w, keys, s.unit, w.entries[s].key))
    && (forall c :: c in w.calls ==> CallAgrees(w, keys, w.calls[c]))
  }

  /** The step does not undo a stored key: a transaction that stored one commits. */
  predicate KeepsStored(w: World, s: Step) {
    s.Rollback? ==> forall u :: u in w.waiting ==> w.waiting[u].tx != s.tx
  }

  predicate StorersCommit(w: World, keys: Keys, steps: seq<Step>)
    decreases |steps|
  {
    steps == [] || (KeepsStored(w, steps[0]) && StorersCommit(Next(w, keys, steps[0]), keys, steps[1..]))
  }

  /** A unit's wrapped key, once there is one, is the one for good. */
  lemma OfficialStays(w: World, keys: Keys, s: Step, unit: Unit)
    requires Enabled(w, keys, s) && KeepsStored(w, s)
    ensures Official(w, unit).Some? ==> Official(Apply(w, keys, s), unit) == Official(w, unit)
  {
  }

  /** Whose call a step moves on, if any. */
  predicate Moves(s: Step, c: CallId) {
    match s
    case Begin(x, _, _, _) => x == c
    case Load(x) => x == c
    case Mint(x, _, _) => x == c
    case Store(x) => x == c
    case Conclude(x) => x == c
    case Look(x) => x == c
    case Unwrap(x) => x == c
    case _ => false
  }

  lemma OtherCallsStay(w: World, keys: Keys, s: Step, c: CallId)
    requires Enabled(w, keys, s) && !Moves(s, c)
    ensures c in Apply(w, keys, s).calls <==> c in w.calls
    ensures c in w.calls ==> Apply(w, keys, s).calls[c] == w.calls[c]
  {
    hide Visible;
  }

  lemma StoreStep(w: World, keys: Keys, c: CallId)
    requires Agreement(w, keys) && Enabled(w, keys, Store(c))
    ensures CallAgrees(Apply(w, keys, Store(c)), keys, Apply(w, keys, Store(c)).calls[c])
  {
    hide IsKeyOf;
    assert CallAgrees(w, keys, w.calls[c]);
  }

  lemma LookStep(w: World, keys: Keys, c: CallId)
    requires Agreement(w, keys) && Enabled(w, keys, Look(c))
    ensures CallAgrees(Apply(w, keys, Look(c)), keys, Apply(w, keys, Look(c)).calls[c])
  {
    hide Visible;
    assert CallAgrees(w, keys, w.calls[c]);
  }

  lemma UnwrapStep(w: World, keys: Keys, c: CallId)
    requires Agreement(w, keys) && Enabled(w, keys, Unwrap(c))
    ensures CallAgrees(Apply(w, keys, Unwrap(c)), keys, Apply(w, keys, Unwrap(c)).calls[c])
  {
    hide Visible;
    assert CallAgrees(w, keys, w.calls[c]);
  }

  lemma ConcludeStep(w: World, keys: Keys, c: CallId)
    requires Agreement(w, keys) && Enabled(w, keys, Conclude(c))
    ensures CallAgrees(Apply(w, keys, Conclude(c)), keys, Apply(w, keys, Conclude(c)).calls[c])
  {
    hide Visible;
    assert CallAgrees(w, keys, w.calls[c]);
  }

  lemma OwnCallStep(w: World, keys: Keys, s: Step, c: CallId)
    requires Agreement(w, keys) && Enabled(w, keys, s) && Moves(s, c) && c in Apply(w, keys, s).calls
    ensures CallAgrees(Apply(w, keys, s), keys, Apply(w, keys, s).calls[c])
  {
    match s
    case Store(_) =>
      hide Apply, Enabled, CallAgrees, Agreement;
      StoreStep(w, keys, c);
    case Look(_) =>
      hide Apply, Enabled, CallAgrees, Agreement;
      LookStep(w, keys, c);
    case Unwrap(_) =>
      hide Apply, Enabled, CallAgrees, Agreement;
      UnwrapStep(w, keys, c);
    case Conclude(_) =>
      hide Apply, Enabled, CallAgrees, Agreement;
      ConcludeStep(w, keys, c);
    case _ => hide IsKeyOf, Put;
  }

  lemma CallStep(w: World, keys: Keys, s: Step, c: CallId)
    requires Agreement(w, keys) && Enabled(w, keys, s) && KeepsStored(w, s) && c in Apply(w, keys, s).calls
    ensures CallAgrees(Apply(w, keys, s), keys, Apply(w, keys, s).calls[c])
  {
    hide Apply, Enabled, Official, KeepsStored;
    if Moves(s, c) {
      OwnCallStep(w, keys, s, c);
    } else {
      OtherCallsStay(w, keys, s, c);
      OfficialStays(w, keys, s, w.calls[c].unit);
    }
  }

  /** Only a call's own put brings a key into the cache. */
  lemma KeyComesFrom(w: World, keys: Keys, s: Step, slot: Slot)
    requires Enabled(w, keys, s) && slot in Apply(w, keys, s).entries
    ensures || (slot in w.entries && Apply(w, keys, s).entries[slot].key == w.entries[slot].key)
            || ((s.Conclude? || s.Unwrap?) && s.call in Apply(w, keys, s).calls
                && var call := Apply(w, keys, s).calls[s.call];
                   call.unit == slot.unit && call.phase == Returned(Apply(w, keys, s).entries[slot].key))
  {
    hide Visible, Official;
  }

  lemma EntryStep(w: World, keys: Keys, s: Step, slot: Slot)
    requires Agreement(w, keys) && Enabled(w, keys, s) && KeepsStored(w, s) && slot in Apply(w, keys, s).entries
    ensures IsKeyOf(Apply(w, keys, s), keys, slot.unit, Apply(w, keys, s).entries[slot].key)
  {
    hide Apply, Enabled, Official, KeepsStored;
    KeyComesFrom(w, keys, s, slot);
    OfficialStays(w, keys, s, slot.unit);
    if s.Conclude? || s.Unwrap? {
      if s.call in Apply(w, keys, s).calls {
        CallStep(w, keys, s, s.call);
      }
    }
  }

  lemma AgreementStep(w: World, keys: Keys, s: Step)
    requires Agreement(w, keys) && KeepsStored(w, s)
    ensures Agreement(Next(w, keys, s), keys)
  {
    hide Apply, Enabled, CallAgrees, IsKeyOf, KeepsStored;
    if Enabled(w, keys, s) {
      var after := Apply(w, keys, s);
      forall c | c in after.calls ensures CallAgrees(after, keys, after.calls[c]) { CallStep(w, keys, s, c); }
      forall slot | slot in after.entries ensures IsKeyOf(after, keys, slot.unit, after.entries[slot].key) {
        EntryStep(w, keys, s, slot);
      }
    }
  }

  lemma {:induction false} AgreementRun(w: World, keys: Keys, steps: seq<Step>)
    requires Agreement(w, keys) && StorersCommit(w, keys, steps)
    ensures Agreement(Run(w, keys, steps), keys)
    decreases |steps|
  {
    hide Next, Agreement, KeepsStored;
    if steps != [] {
      AgreementStep(w, keys, steps[0]);
      AgreementRun(Next(w, keys, steps[0]), keys, steps[1..]);
    }
  }

  /**
   If every transaction that stores a key commits, then in every interleaving each key a call
   returned and each key a session holds is the unwrapping of the unit's one wrapped key.
   */
  lemma SessionsAgree(keys: Keys, steps: seq<Step>, unit: Unit)
    requires StorersCommit(START, keys, steps)
    ensures var w := Run(START, keys, steps);
            && (forall c :: c in w.calls && w.calls[c].unit == unit && w.calls[c].phase.Returned? ==>
                  IsKeyOf(w, keys, unit, w.calls[c].phase.key))
            && (forall s :: s in w.entries && s.unit == unit ==> IsKeyOf(w, keys, unit, w.entries[s].key))
  {
    AgreementRun(START, keys, steps);
    var w := Run(START, keys, steps);
    forall c | c in w.calls && w.calls[c].unit == unit && w.calls[c].phase.Returned?
      ensures IsKeyOf(w, keys, unit, w.calls[c].phase.key)
    {
      assert CallAgrees(w, keys, w.calls[c]);
    }
  }

  lemma CallStays(w: World, keys: Keys, s: Step, c: CallId)
    requires c in w.calls
    ensures c in Next(w, keys, s).calls && Next(w, keys, s).calls[c].unit == w.calls[c].unit
  {
    hide Visible, Official;
  }

  lemma {:induction false} OfficialStaysRun(w: World, keys: Keys, steps: seq<Step>, unit: Unit, c: CallId)
    requires StorersCommit(w, keys, steps) && Official(w, unit).Some?
    requires c in w.calls && w.calls[c].unit == unit
    ensures Official(Run(w, keys, steps), unit) == Official(w, unit)
    ensures c in Run(w, keys, steps).calls && Run(w, keys, steps).calls[c].unit == unit
    decreases |steps|
  {
    hide Apply, Enabled, Official, KeepsStored;
    if steps != [] {
      CallStays(w, keys, steps[0], c);
      if Enabled(w, keys, steps[0]) { OfficialStays(w, keys, steps[0], unit); }
      OfficialStaysRun(Next(w, keys, steps[0]), keys, steps[1..], unit, c);
    }
  }

  /**
   A call that stored nothing because another's row was there before its own: whatever key it
   minted, the key it returns is the winner's, and so is every key of the unit held by then.
   */
  lemma LoserReturnsTheWinnersKey(keys: Keys, before: seq<Step>, steps: seq<Step>, c: CallId)
    requires StorersCommit(START, keys, before) && StorersCommit(Run(START, keys, before), keys, steps)
    requires var w := Run(START, keys, before);
             c in w.calls && w.calls[c].phase.Stored? && w.calls[c].phase.winner != w.calls[c].phase.wrapped
    ensures var w := Run(START, keys, before);
            var after := Run(w, keys, steps);
            var won := keys.unwrap(w.calls[c].unit, w.calls[c].phase.winner);
            && c in after.calls
            && (after.calls[c].phase.Returned? ==> Some(after.calls[c].phase.key) == won)
            && (forall s :: s in after.entries && s.unit == w.calls[c].unit ==> Some(after.entries[s].key) == won)
  {
    var w := Run(START, keys, before);
    AgreementRun(START, keys, before);
    AgreementRun(w, keys, steps);
    assert CallAgrees(w, keys, w.calls[c]);
    OfficialStaysRun(w, keys, steps, w.calls[c].unit, c);
    assert CallAgrees(Run(w, keys, steps), keys, Run(w, keys, steps).calls[c]);
  }

  lemma {:induction false} RunBoth(w: World, keys: Keys, a: seq<Step>, b: seq<Step>)
    ensures Run(w, keys, a + b) == Run(Run(w, keys, a), keys, b)
    decreases |a|
  {
    if a == [] {
      assert a + b == b;
    } else {
      assert (a + b)[1..] == a[1..] + b;
      RunBoth(Next(w, keys, a[0]), keys, a[1..], b);
    }
  }

  /** The steps of a call that mints a key and stores it. */
  function MintingCall(c: CallId, session: Session, unit: Unit, tx: Tx, key: Key, wrapped: WrappedKey): seq<Step> {
    [Begin(c, session, unit, tx), Load(c), Mint(c, key, wrapped), Store(c), Conclude(c)]
  }

  /** Step by step: the call begins, finds no row, mints, and stores. */
  lemma MintSteps(w: World, keys: Keys, c: CallId, session: Session, unit: Unit, tx: Tx, key: Key, wrapped: WrappedKey)
    requires c !in w.calls && unit.Stored() && unit !in w.rows && unit !in w.waiting && keys.unwrap(unit, wrapped) == Some(key)
    ensures var a := w.(calls := w.calls[c := Call(session, unit, tx, Starting)]);
            var b := w.(calls := w.calls[c := Call(session, unit, tx, Minting)]);
            var d := w.(calls := w.calls[c := Call(session, unit, tx, Storing(key, wrapped))]);
            var e := w.(waiting := w.waiting[unit := Uncommitted(tx, wrapped)],
                        calls := w.calls[c := Call(session, unit, tx, Phase.Stored(key, wrapped, wrapped))]);
            && Next(w, keys, Begin(c, session, unit, tx)) == a && Next(a, keys, Load(c)) == b
            && Next(b, keys, Mint(c, key, wrapped)) == d && Next(d, keys, Store(c)) == e
            && Next(e, keys, Conclude(c))
                 == e.(entries := w.entries[Slot(session, unit) := Entry(key, w.now)],
                       calls := w.calls[c := Call(session, unit, tx, Returned(key))])
  {
  }

  /** A call that finds no row and no other inserter stores, caches and returns its own key. */
  lemma MintAlone(w: World, keys: Keys, c: CallId, session: Session, unit: Unit, tx: Tx, key: Key, wrapped: WrappedKey)
    requires c !in w.calls && unit.Stored() && unit !in w.rows && unit !in w.waiting && keys.unwrap(unit, wrapped) == Some(key)
    ensures Run(w, keys, MintingCall(c, session, unit, tx, key, wrapped))
              == w.(waiting := w.waiting[unit := Uncommitted(tx, wrapped)],
                    entries := w.entries[Slot(session, unit) := Entry(key, w.now)],
                    calls := w.calls[c := Call(session, unit, tx, Returned(key))])
  {
    var a := w.(calls := w.calls[c := Call(session, unit, tx, Starting)]);
    var b := w.(calls := w.calls[c := Call(session, unit, tx, Minting)]);
    var d := w.(calls := w.calls[c := Call(session, unit, tx, Storing(key, wrapped))]);
    var e := w.(waiting := w.waiting[unit := Uncommitted(tx, wrapped)],
                calls := w.calls[c := Call(session, unit, tx, Phase.Stored(key, wrapped, wrapped))]);
    MintSteps(w, keys, c, session, unit, tx, key, wrapped);
    hide Next;
    RunOne(e, keys, Conclude(c), []);
    RunOne(d, keys, Store(c), [Conclude(c)]);
    RunOne(b, keys, Mint(c, key, wrapped), [Store(c), Conclude(c)]);
    RunOne(a, keys, Load(c), [Mint(c, key, wrapped), Store(c), Conclude(c)]);
    RunOne(w, keys, Begin(c, session, unit, tx), [Load(c), Mint(c, key, wrapped), Store(c), Conclude(c)]);
  }

  /** The steps of a call that finds the unit's row and not its key. */
  function UnwrappingCall(c: CallId, session: Session, unit: Unit, tx: Tx): seq<Step> {
    [Begin(c, session, unit, tx), Load(c), Look(c), Unwrap(c)]
  }

  /** A call on a unit whose row can be seen returns and caches its unwrapping, or fails and caches nothing. */
  lemma RowIsUnwrapped(w: World, keys: Keys, c: CallId, session: Session, unit: Unit, tx: Tx)
    requires c !in w.calls && unit.Stored() && unit in w.rows && Slot(session, unit) !in w.entries
    ensures var after := Run(w, keys, UnwrappingCall(c, session, unit, tx));
            match keys.unwrap(unit, w.rows[unit])
            case Some(key) => after == w.(entries := w.entries[Slot(session, unit) := Entry(key, w.now)],
                                          calls := w.calls[c := Call(session, unit, tx, Returned(key))])
            case None => after == w.(calls := w.calls[c := Call(session, unit, tx, Failed)])
  {
    var a := w.(calls := w.calls[c := Call(session, unit, tx, Starting)]);
    var b := w.(calls := w.calls[c := Call(session, unit, tx, Getting(w.rows[unit]))]);
    var d := w.(calls := w.calls[c := Call(session, unit, tx, Unwrapping(w.rows[unit]))]);
    assert Next(w, keys, Begin(c, session, unit, tx)) == a;
    assert Next(a, keys, Load(c)) == b;
    assert Next(b, keys, Look(c)) == d;
    RunOne(d, keys, Unwrap(c), []);
    RunOne(b, keys, Look(c), [Unwrap(c)]);
    RunOne(a, keys, Load(c), [Look(c), Unwrap(c)]);
    RunOne(w, keys, Begin(c, session, unit, tx), [Load(c), Look(c), Unwrap(c)]);
  }

  /** A call whose session has the key returns it without unwrapping, and marks it used. */
  lemma CachedKeyIsReturned(w: World, keys: Keys, c: CallId, session: Session, unit: Unit, tx: Tx)
    requires c !in w.calls && unit.Stored() && unit in w.rows && Slot(session, unit) in w.entries
    ensures var slot := Slot(session, unit);
            Run(w, keys, [Begin(c, session, unit, tx), Load(c), Look(c)])
              == w.(entries := w.entries[slot := Entry(w.entries[slot].key, w.now)],
                    calls := w.calls[c := Call(session, unit, tx, Returned(w.entries[slot].key))])
  {
    var a := w.(calls := w.calls[c := Call(session, unit, tx, Starting)]);
    var b := w.(calls := w.calls[c := Call(session, unit, tx, Getting(w.rows[unit]))]);
    assert Next(w, keys, Begin(c, session, unit, tx)) == a;
    assert Next(a, keys, Load(c)) == b;
    RunOne(b, keys, Look(c), []);
    RunOne(a, keys, Load(c), [Look(c)]);
    RunOne(w, keys, Begin(c, session, unit, tx), [Load(c), Look(c)]);
  }

  /** A call that comes to store after another's row stores nothing, and goes on with that row. */
  lemma LoserGoesOnWithTheRow(w: World, keys: Keys, c: CallId)
    requires c in w.calls && w.calls[c].phase.Storing? && w.calls[c].unit in w.rows && w.calls[c].unit !in w.waiting
    requires w.calls[c].phase.wrapped != w.rows[w.calls[c].unit]
    ensures Next(Next(w, keys, Store(c)), keys, Conclude(c))
              == w.(calls := w.calls[c := w.calls[c].(phase := Getting(w.rows[w.calls[c].unit]))])
  {
    var row := w.rows[w.calls[c].unit];
    var p := w.calls[c].phase;
    var a := w.(calls := w.calls[c := w.calls[c].(phase := Phase.Stored(p.key, p.wrapped, row))]);
    assert Next(w, keys, Store(c)) == a;
  }

  /** What the sessions' own events leave in the cache, key by key; they touch no row and no call. */
  lemma CacheSteps(w: World, keys: Keys, session: Session, tenant: TenantId, document: nat, idle: int, s: Slot)
    ensures var after := Next(w, keys, Release(session));
            && after == w.(entries := after.entries)
            && (s in after.entries <==> s in w.entries && s.session != session)
            && (s in after.entries ==> after.entries[s] == w.entries[s])
    ensures var after := Next(w, keys, Step.ReleaseDocument(session, tenant, document));
            && after == w.(entries := after.entries)
            && (s in after.entries <==> s in w.entries && s != Slot(session, Document(tenant, document)))
            && (s in after.entries ==> after.entries[s] == w.entries[s])
    ensures var after := Next(w, keys, SweepIdle(idle));
            && after == w.(entries := after.entries)
            && (s in after.entries <==> s in w.entries && w.now - w.entries[s].lastActivity < idle)
            && (s in after.entries ==> after.entries[s] == w.entries[s])
    ensures var after := Next(w, keys, Touch(session));
            && after == w.(entries := after.entries)
            && (s in after.entries <==> s in w.entries)
            && (s in after.entries ==>
                  after.entries[s] == Entry(w.entries[s].key, if s.session == session then w.now else w.entries[s].lastActivity))
  {
  }

  /** A commit makes exactly the transaction's rows the units'; a rollback drops exactly them. */
  lemma CommitsItsRows(w: World, keys: Keys, tx: Tx, unit: Unit)
    requires OneOrNone(w)
    ensures var after := Next(w, keys, Commit(tx));
            && after == w.(rows := after.rows, waiting := after.waiting)
            && (if unit in w.waiting && w.waiting[unit].tx == tx then
                  unit in after.rows && after.rows[unit] == w.waiting[unit].wrapped && unit !in after.waiting
                else
                  && (unit in after.rows <==> unit in w.rows) && (unit in w.rows ==> after.rows[unit] == w.rows[unit])
                  && (unit in after.waiting <==> unit in w.waiting) && (unit in w.waiting ==> after.waiting[unit] == w.waiting[unit]))
    ensures var after := Next(w, keys, Rollback(tx));
            && after == w.(waiting := after.waiting)
            && (unit in after.waiting <==> unit in w.waiting && w.waiting[unit].tx != tx)
            && (unit in after.waiting ==> after.waiting[unit] == w.waiting[unit])
  {
  }

  lemma RunOne(w: World, keys: Keys, s: Step, rest: seq<Step>)
    ensures Run(w, keys, [s] + rest) == Run(Next(w, keys, s), keys, rest)
    ensures Run(w, keys, []) == w
  {
    assert ([s] + rest)[1..] == rest;
  }

  lemma RunThen(w: World, keys: Keys, steps: seq<Step>, s: Step)
    ensures Run(w, keys, steps + [s]) == Next(Run(w, keys, steps), keys, s)
  {
    RunBoth(w, keys, steps, [s]);
    assert [s][1..] == [];
    assert Run(Next(Run(w, keys, steps), keys, s), keys, []) == Next(Run(w, keys, steps), keys, s);
  }

  /**
   The hypothesis is needed: when the transaction that stored a key is rolled back, its session
   keeps a key that is not the one the next transaction stores.
   */
  lemma RollbackBreaksAgreement(keys: Keys, unit: Unit, k1: Key, w1: WrappedKey, k2: Key, w2: WrappedKey)
    requires unit.Stored() && k1 != k2 && keys.unwrap(unit, w1) == Some(k1) && keys.unwrap(unit, w2) == Some(k2)
    ensures var undone := MintingCall(1, 1, unit, 1, k1, w1) + [Rollback(1)];
            var w := Run(START, keys, undone + (MintingCall(2, 2, unit, 2, k2, w2) + [Commit(2)]));
            && unit in w.rows && Slot(1, unit) in w.entries
            && !IsKeyOf(w, keys, unit, w.entries[Slot(1, unit)].key)
  {
    hide Run, MintingCall;
    var one, two := MintingCall(1, 1, unit, 1, k1, w1), MintingCall(2, 2, unit, 2, k2, w2);
    MintAlone(START, keys, 1, 1, unit, 1, k1, w1);
    RunThen(START, keys, one, Rollback(1));
    var between := Run(START, keys, one + [Rollback(1)]);
    assert unit !in between.waiting && unit !in between.rows;
    MintAlone(between, keys, 2, 2, unit, 2, k2, w2);
    RunBoth(START, keys, one + [Rollback(1)], two + [Commit(2)]);
    RunThen(between, keys, two, Commit(2));
    assert Run(between, keys, two).waiting[unit].tx == 2;
  }

  /** A unit has either a row or one waiting to be committed. */
  predicate OneOrNone(w: World) { w.rows.Keys !! w.waiting.Keys }

  lemma {:induction false} OneOrNoneRun(w: World, keys: Keys, steps: seq<Step>)
    requires OneOrNone(w)
    ensures OneOrNone(Run(w, keys, steps))
    decreases |steps|
  {
    hide OneOrNone, Next;
    if steps != [] {
      OneOrNoneStep(w, keys, steps[0]);
      OneOrNoneRun(Next(w, keys, steps[0]), keys, steps[1..]);
    }
  }

  lemma OneOrNoneStep(w: World, keys: Keys, s: Step)
    requires OneOrNone(w)
    ensures OneOrNone(Next(w, keys, s))
  {
  }

  /** The call stored the unit's row, and may have returned since. */
  predicate Storer(call: Call, unit: Unit) {
    call.unit == unit && (call.phase.Returned? || (call.phase.Stored? && call.phase.winner == call.phase.wrapped))
  }

  /** Every row waiting to be committed has the call that stored it, which has not forgotten its key. */
  ghost predicate Backed(w: World) {
    forall u :: u in w.waiting ==> exists c :: c in w.calls && Storer(w.calls[c], u)
  }

  lemma StorerStays(w: World, keys: Keys, s: Step, c: CallId, unit: Unit)
    requires Enabled(w, keys, s) && c in w.calls && Storer(w.calls[c], unit)
    ensures c in Apply(w, keys, s).calls && Storer(Apply(w, keys, s).calls[c], unit)
  {
    hide Visible;
  }

  lemma BackedStep(w: World, keys: Keys, s: Step)
    requires Backed(w)
    ensures Backed(Next(w, keys, s))
  {
    hide Visible;
    if Enabled(w, keys, s) {
      var after := Apply(w, keys, s);
      forall u | u in after.waiting ensures exists c :: c in after.calls && Storer(after.calls[c], u) {
        if u in w.waiting {
          var c :| c in w.calls && Storer(w.calls[c], u);
          StorerStays(w, keys, s, c, u);
        } else {
          assert Storer(after.calls[s.call], u);
        }
      }
    }
  }

  lemma {:induction false} BackedRun(w: World, keys: Keys, steps: seq<Step>)
    requires Backed(w)
    ensures Backed(Run(w, keys, steps))
    decreases |steps|
  {
    hide Backed, Next;
    if steps != [] {
      BackedStep(w, keys, steps[0]);
      BackedRun(Next(w, keys, steps[0]), keys, steps[1..]);
    }
  }

  lemma UndoingBreaks(w: World, keys: Keys, tx: Tx, unit: Unit, c: CallId)
    requires OneOrNone(w) && unit in w.waiting && w.waiting[unit].tx == tx
    requires c in w.calls && Storer(w.calls[c], unit)
    ensures !Agreement(Next(w, keys, Rollback(tx)), keys)
  {
    var after := Next(w, keys, Rollback(tx));
    assert Official(after, unit) == None;
    assert !CallAgrees(after, keys, after.calls[c]);
  }

  /**
   In every state reached by transactions that commit what they store, rolling one back keeps
   agreement exactly when it has stored no key of its own.
   */
  lemma RollbackKeepsAgreementExactly(keys: Keys, steps: seq<Step>, tx: Tx)
    requires StorersCommit(START, keys, steps)
    ensures var w := Run(START, keys, steps);
            Agreement(Next(w, keys, Rollback(tx)), keys) <==> forall u :: u in w.waiting ==> w.waiting[u].tx != tx
  {
    assert Agreement(START, keys) && OneOrNone(START) && Backed(START);
    hide Run, Next, Agreement, StorersCommit, Storer, OneOrNone;
    var w := Run(START, keys, steps);
    AgreementRun(START, keys, steps);
    OneOrNoneRun(START, keys, steps);
    BackedRun(START, keys, steps);
    if u :| u in w.waiting && w.waiting[u].tx == tx {
      var c :| c in w.calls && Storer(w.calls[c], u);
      UndoingBreaks(w, keys, tx, u, c);
    } else {
      AgreementStep(w, keys, Rollback(tx));
    }
  }
}
