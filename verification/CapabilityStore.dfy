// The private capabilities kept for resending a completed result (src/app/ResultDeliveryCapability.ts):
// an expiring map, kept as one document in a storage that may hold anything and may refuse a write.
module CapabilityStore {
  import opened Text

  const RETENTION := 7 * 24 * 60 * 60 * 1000

  datatype Capability = Capability(baseUrl: Str, sessionId: Str, sessionToken: Str)
  {
    predicate Valid() { baseUrl != [] && sessionId != [] && sessionToken != [] }
  }

  datatype Entry = Entry(capability: Capability, expiresAt: int)

  type Entries = map<Str, Entry>

  /** One value of the stored document, trusted no further than its shape. */
  datatype Raw = NotAnEntry | RawEntry(capability: Capability, expiresAt: Option<int>)

  /** What the storage key holds: nothing, something that is not our document, or our document. */
  datatype Stored = Absent | Unusable | Document(raw: map<Str, Raw>)

  predicate Sound(r: Raw)
  {
    r.RawEntry? && r.capability.Valid() && r.expiresAt.Some?
  }

  /** The usable entries of a document. */
  function SoundEntries(raw: map<Str, Raw>): Entries
  {
    map id | id in raw && Sound(raw[id]) :: Entry(raw[id].capability, raw[id].expiresAt.value)
  }

  function View(s: Stored): Entries
  {
    if s.Document? then SoundEntries(s.raw) else map[]
  }

  /** Nothing has expired for a clock that cannot be read. */
  predicate Expired(e: Entry, clock: Option<int>) { clock.Some? && e.expiresAt <= clock.value }

  /** What is left after expired entries are removed. */
  function Swept(es: Entries, clock: Option<int>): Entries
  {
    map id | id in es && !Expired(es[id], clock) :: es[id]
  }

  /** What the store offers at a moment. */
  function Live(s: Stored, clock: Option<int>): map<Str, Capability>
  {
    map id | id in View(s) && !Expired(View(s)[id], clock) :: View(s)[id].capability
  }

  /** Whatever has expired for the one clock has expired for the other. */
  predicate NotBefore(clock: Option<int>, later: Option<int>)
  {
    clock.Some? ==> later.Some? && clock.value <= later.value
  }

  function Written(es: Entries): Stored
  {
    Document(map id | id in es :: RawEntry(es[id].capability, Some(es[id].expiresAt)))
  }

  /** The document as this store leaves it: gone, or with at least one entry, every one of them usable. */
  predicate Tidy(s: Stored)
  {
    s.Absent? || (s.Document? && s.raw != map[] && forall id :: id in s.raw ==> Sound(s.raw[id]))
  }

  ghost predicate AllValid(es: Entries) { forall id :: id in es ==> es[id].capability.Valid() }

  lemma WrittenReadsBack(es: Entries)
    requires AllValid(es)
    ensures View(Written(es)) == es
    ensures es != map[] ==> Tidy(Written(es))
  {
    assert Written(es).raw.Keys == es.Keys;
    assert View(Written(es)).Keys == es.Keys;
  }

  lemma OneMoreIsValid(es: Entries, clock: Option<int>, id: Str, e: Entry)
    requires AllValid(es) && e.capability.Valid()
    ensures AllValid(Swept(es, clock)[id := e]) && Swept(es, clock)[id := e] != map[]
  {
    assert id in Swept(es, clock)[id := e];
  }

  lemma ViewIsValid(s: Stored)
    ensures AllValid(View(s))
  {
  }

  function Min(a: int, b: int): (m: int)
    ensures m <= a && m <= b && (m == a || m == b)
  {
    if a < b then a else b
  }

  /** `id` is live with this capability until exactly the given time. */
  ghost predicate LiveUntil(s: Stored, id: Str, capability: Capability, end: int)
  {
    forall clock: Option<int> :: if clock.Some? && end <= clock.value then id !in Live(s, clock)
                    else id in Live(s, clock) && Live(s, clock)[id] == capability
  }

  /** Every other id is live exactly when it was, at every clock not before `sweep`. */
  ghost predicate OthersAsLive(before: Stored, after: Stored, id: Str, sweep: Option<int>)
  {
    forall clock, k :: NotBefore(sweep, clock) && k != id ==> SameLife(before, after, clock, k)
  }

  predicate SameLife(before: Stored, after: Stored, clock: Option<int>, k: Str)
  {
    (k in Live(before, clock) <==> k in Live(after, clock))
    && (k in Live(before, clock) ==> Live(after, clock)[k] == Live(before, clock)[k])
  }

  lemma RememberedIsLive(
    before: Stored, after: Stored, id: Str, capability: Capability, completed: int, now: int, sweep: Option<int>
  )
    requires View(after) == Swept(View(before), sweep)[id := Entry(capability, Min(completed, now) + RETENTION)]
    ensures LiveUntil(after, id, capability, Min(completed, now) + RETENTION)
    ensures OthersAsLive(before, after, id, sweep)
  {
    forall clock, k | NotBefore(sweep, clock) && k != id ensures SameLife(before, after, clock, k) {
      if k in View(before) {
        assert Expired(View(before)[k], sweep) ==> Expired(View(before)[k], clock);
      }
    }
  }

  class Store {
    var stored: Stored
    // Whether the browser currently takes writes and removals. Nothing here changes them.
    var takesWrites: bool
    var takesRemovals: bool

    constructor ()
      ensures stored == Absent && takesWrites && takesRemovals
    {
      stored, takesWrites, takesRemovals := Absent, true, true;
    }

    ghost predicate Healthy()
      reads this
    {
      takesWrites && takesRemovals
    }

    method ReadDocument() returns (document: Option<Entries>)
      modifies this`stored
      ensures document == if old(stored).Unusable? then None else Some(View(old(stored)))
      ensures stored == if old(stored).Unusable? && takesRemovals then Absent else old(stored)
    {
      match stored {
        case Absent => return Some(map[]);
        case Unusable =>
          if takesRemovals {
            stored := Absent;
          }
          return None;
        case Document(raw) =>
          var entries: Entries := map[];
          var ids := raw.Keys;
          while ids != {}
            invariant ids <= raw.Keys
            invariant entries ==
              map id | id in raw && id !in ids && Sound(raw[id]) :: Entry(raw[id].capability, raw[id].expiresAt.value)
          {
            var id :| id in ids;
            ids := ids - {id};
            if Sound(raw[id]) {
              entries := entries[id := Entry(raw[id].capability, raw[id].expiresAt.value)];
            }
          }
          assert entries == SoundEntries(raw);
          return Some(entries);
      }
    }

    method WriteDocument(entries: Entries) returns (written: bool)
      modifies this`stored
      ensures written == takesWrites
      ensures stored == if takesWrites then Written(entries) else old(stored)
    {
      if takesWrites {
        stored := Written(entries);
      }
      return takesWrites;
    }

    method RemoveExpired(entries: Entries, clock: Option<int>) returns (kept: Entries)
      ensures kept == Swept(entries, clock)
    {
      kept := entries;
      var ids := entries.Keys;
      while ids != {}
        invariant ids <= entries.Keys
        invariant kept.Keys == set id | id in entries && (id in ids || !Expired(entries[id], clock))
        invariant forall id :: id in kept ==> kept[id] == entries[id]
      {
        var id :| id in ids;
        ids := ids - {id};
        if Expired(entries[id], clock) {
          kept := kept - {id};
        }
      }
      assert kept.Keys == Swept(entries, clock).Keys;
    }

    method KeepOnly(entries: Entries, retained: set<Str>) returns (kept: Entries)
      ensures kept == map id | id in entries && id in retained :: entries[id]
    {
      kept := entries;
      var ids := entries.Keys;
      while ids != {}
        invariant ids <= entries.Keys
        invariant kept == map id | id in entries && (id in ids || id in retained) :: entries[id]
      {
        var id :| id in ids;
        ids := ids - {id};
        if id !in retained {
          kept := kept - {id};
        }
      }
    }

    /** Write a reduced document back, or drop the key when nothing is left. */
    method WriteBack(entries: Entries)
      modifies this`stored
      ensures stored ==
        if entries == map[] then (if takesRemovals then Absent else old(stored))
        else if takesWrites then Written(entries) else old(stored)
    {
      if entries == map[] {
        if takesRemovals {
          stored := Absent;
        }
        return;
      }
      var _ := WriteDocument(entries);
    }

    method Has(id: Str, now: Option<int>) returns (r: bool)
      modifies this`stored
      ensures r == (id in Live(old(stored), now))
      ensures View(stored) == View(old(stored))
      ensures Tidy(old(stored)) ==> stored == old(stored)
    {
      var document := ReadDocument();
      return document.Some? && id in document.value && !Expired(document.value[id], now);
    }

    method Get(id: Str, now: Option<int>) returns (r: Option<Capability>)
      modifies this`stored
      ensures r == if id in Live(old(stored), now) then Some(Live(old(stored), now)[id]) else None
      ensures Tidy(old(stored)) ==> Tidy(stored)
      ensures forall later :: NotBefore(now, later) ==> Live(stored, later) == Live(old(stored), later)
      ensures old(Healthy()) ==> View(stored) == Apply(View(old(stored)), Op.Get(id, now))
    {
      var document := ReadDocument();
      if document.None? || id !in document.value {
        return None;
      }
      var entry := document.value[id];
      if Expired(entry, now) {
        Remove(id);
        return None;
      }
      return Some(entry.capability);
    }

    /** The clock is read twice: for the new entry's time, and again to remove what has expired. */
    method Remember(id: Str, capability: Capability, completedAt: Option<int>, now: Option<int>, sweep: Option<int>)
      returns (r: bool)
      modifies this`stored
      ensures Tidy(old(stored)) ==> Tidy(stored)
      ensures r <==>
        && |capability.baseUrl| > 0 && |capability.sessionId| > 0 && |capability.sessionToken| > 0
        && completedAt.Some? && now.Some? && takesWrites
      ensures View(stored) ==
        if r then Apply(View(old(stored)), Op.Remember(id, capability, completedAt, now, sweep)) else View(old(stored))
      ensures r ==> LiveUntil(stored, id, capability, Min(completedAt.value, now.value) + 604_800_000)
      ensures r ==> OthersAsLive(old(stored), stored, id, sweep)
    {
      if !capability.Valid() || completedAt.None? || now.None? {
        return false;
      }
      r := PutEntry(id, Entry(capability, Min(completedAt.value, now.value) + RETENTION), sweep);
      if r {
        RememberedIsLive(old(stored), stored, id, capability, completedAt.value, now.value, sweep);
      }
    }

    /** Write the document back without what has expired and with one entry more. */
    method PutEntry(id: Str, e: Entry, sweep: Option<int>) returns (written: bool)
      requires e.capability.Valid()
      modifies this`stored
      ensures written == takesWrites && (Tidy(old(stored)) ==> Tidy(stored))
      ensures View(stored) == if written then Swept(View(old(stored)), sweep)[id := e] else View(old(stored))
    {
      var document := ReadDocument();
      var entries := RemoveExpired(if document.Some? then document.value else map[], sweep);
      ViewIsValid(old(stored));
      OneMoreIsValid(View(old(stored)), sweep, id, e);
      entries := entries[id := e];
      WrittenReadsBack(entries);
      written := WriteDocument(entries);
    }

    method Remove(id: Str)
      modifies this`stored
      ensures Tidy(old(stored)) ==> Tidy(stored)
      ensures View(stored) == View(old(stored)) - {id} || View(stored) == View(old(stored))
      ensures old(Healthy()) ==> View(stored) == Apply(View(old(stored)), Op.Remove(id))
    {
      var document := ReadDocument();
      if document.None? || id !in document.value {
        return;
      }
      var entries := document.value - {id};
      WrittenReadsBack(entries);
      WriteBack(entries);
    }

    method Prune(retained: Option<set<Str>>, now: Option<int>)
      modifies this`stored
      ensures Tidy(old(stored)) ==> Tidy(stored)
      ensures View(stored) == Apply(View(old(stored)), Op.Prune(retained, now)) || View(stored) == View(old(stored))
      ensures old(Healthy()) ==> View(stored) == Apply(View(old(stored)), Op.Prune(retained, now))
    {
      var document := ReadDocument();
      if document.None? {
        assert View(stored) == Apply(View(old(stored)), Op.Prune(retained, now));
        return;
      }
      var before := document.value;
      var entries := RemoveExpired(before, now);
      if retained.Some? {
        entries := KeepOnly(entries, retained.value);
      }
      SweptIsPruned(before, retained, now);
      if entries == before {
        return;
      }
      WrittenReadsBack(entries);
      WriteBack(entries);
    }
  }

  // --- the map the store stands for -----------------------------------------------------------------

  datatype Op =
    | Remember(id: Str, capability: Capability, completedAt: Option<int>, clock: Option<int>, sweep: Option<int>)
    | Remove(id: Str)
    | Prune(retained: Option<set<Str>>, now: Option<int>)
    | Get(id: Str, now: Option<int>)

  function Apply(es: Entries, op: Op): Entries
  {
    match op
    case Remember(id, capability, completedAt, now, sweep) =>
      if !capability.Valid() || completedAt.None? || now.None? then es
      else Swept(es, sweep)[id := Entry(capability, Min(completedAt.value, now.value) + RETENTION)]
    case Remove(id) => es - {id}
    case Prune(retained, now) =>
      map id | id in es && !Expired(es[id], now) && (retained.Some? ==> id in retained.value) :: es[id]
    case Get(id, now) => if id in es && Expired(es[id], now) then es - {id} else es
  }

  /** Sweeping and then keeping what was asked to stay is pruning. */
  lemma SweptIsPruned(es: Entries, retained: Option<set<Str>>, now: Option<int>)
    ensures Swept(es, now) == Apply(es, Op.Prune(None, now))
    ensures retained.Some? ==>
      (map id | id in Swept(es, now) && id in retained.value :: Swept(es, now)[id])
        == Apply(es, Op.Prune(retained, now))
  {
  }

  function ApplyAll(es: Entries, ops: seq<Op>): Entries
  {
    if ops == [] then es else Apply(ApplyAll(es, ops[..|ops| - 1]), ops[|ops| - 1])
  }

  /** After a prune, at that clock or any later one, what is live is what was live and was asked to stay. */
  lemma PruneKeepsExactly(s: Stored, t: Stored, retained: set<Str>, now: Option<int>)
    requires View(t) == Apply(View(s), Op.Prune(Some(retained), now))
    ensures Live(t, now).Keys == Live(s, now).Keys * retained
    ensures forall later :: NotBefore(now, later) ==> Live(t, later).Keys == Live(s, later).Keys * retained
    ensures View(t).Keys == Live(t, now).Keys
  {
  }

  /** The remember at position i put `e` under `id`, and nothing since took it away. */
  ghost predicate Source(ops: seq<Op>, i: nat, id: Str, e: Entry)
  {
    && i < |ops| && ops[i].Remember? && ops[i].id == id && ops[i].capability == e.capability
    && ops[i].completedAt.Some? && ops[i].clock.Some?
    && e.expiresAt == Min(ops[i].completedAt.value, ops[i].clock.value) + RETENTION
    && forall j :: i < j < |ops| ==>
         && (ops[j].Remove? ==> ops[j].id != id)
         && (ops[j].Prune? && ops[j].retained.Some? ==> id in ops[j].retained.value)
         && (ops[j].Prune? ==> !Expired(e, ops[j].now))
  }

  /**
   * Whatever was done to the store, a capability it still holds was remembered, expires no later than the
   * retention window measured from the earlier of completion and the clock then, was not removed since
   * and survived every prune since.
   */
  lemma {:induction false} NothingOutlivesRetention(ops: seq<Op>, id: Str)
    requires id in ApplyAll(map[], ops)
    ensures exists i: nat :: Source(ops, i, id, ApplyAll(map[], ops)[id])
  {
    var n := |ops| - 1;
    var before := ApplyAll(map[], ops[..n]);
    var e := ApplyAll(map[], ops)[id];
    if ops[n].Remember? && ops[n].id == id && ops[n].capability.Valid() && ops[n].completedAt.Some?
       && ops[n].clock.Some? {
      assert Source(ops, n, id, e);
    } else {
      assert id in before && before[id] == e;
      NothingOutlivesRetention(ops[..n], id);
      var i: nat :| Source(ops[..n], i, id, before[id]);
      assert forall j :: i <= j < n ==> ops[j] == ops[..n][j];
      assert Source(ops, i, id, e);
    }
  }

  // --- what is held, exactly ------------------------------------------------------------------------

  /** The operation puts this entry under `id`. */
  predicate Puts(op: Op, id: Str, e: Entry)
  {
    && op.Remember? && op.id == id && op.capability == e.capability && e.capability.Valid()
    && op.completedAt.Some? && op.clock.Some?
    && e.expiresAt == Min(op.completedAt.value, op.clock.value) + RETENTION
  }

  /** The operation leaves this entry under `id` alone. */
  predicate Spares(op: Op, id: Str, e: Entry)
  {
    match op
    case Remember(k, capability, completedAt, clock, sweep) =>
      capability.Valid() && completedAt.Some? && clock.Some? ==> k != id && !Expired(e, sweep)
    case Remove(k) => k != id
    case Prune(retained, now) => !Expired(e, now) && (retained.Some? ==> id in retained.value)
    case Get(k, now) => k == id ==> !Expired(e, now)
  }

  lemma OpHolds(es: Entries, op: Op, id: Str, e: Entry)
    ensures id in Apply(es, op) && Apply(es, op)[id] == e
       <==> Puts(op, id, e) || (id in es && es[id] == e && Spares(op, id, e))
  {
  }

  /** It was put there at position i, and every operation since spared it. */
  ghost predicate HeldSince(ops: seq<Op>, i: nat, id: Str, e: Entry)
  {
    i < |ops| && Puts(ops[i], id, e) && forall j :: i < j < |ops| ==> Spares(ops[j], id, e)
  }

  /** A capability is held exactly when it was remembered and nothing since removed, replaced, pruned or expired it. */
  lemma {:induction false} HeldExactlyWhen(ops: seq<Op>, id: Str, e: Entry)
    ensures id in ApplyAll(map[], ops) && ApplyAll(map[], ops)[id] == e <==> exists i: nat :: HeldSince(ops, i, id, e)
    decreases |ops|
  {
    if ops != [] {
      var n := |ops| - 1;
      HeldExactlyWhen(ops[..n], id, e);
      OpHolds(ApplyAll(map[], ops[..n]), ops[n], id, e);
      forall i: nat | i < n
        ensures HeldSince(ops, i, id, e) <==> HeldSince(ops[..n], i, id, e) && Spares(ops[n], id, e)
      {
        assert forall j :: i < j < n ==> ops[j] == ops[..n][j];
      }
      assert HeldSince(ops, n, id, e) <==> Puts(ops[n], id, e);
    }
  }
}
