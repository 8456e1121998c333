// Restoring a backup as a separate attempt, in Recovery Mode (src/app/RecoveryModeSupport.ts) and from the
// application (src/app/App.tsx), over the record store and the fast journals it writes to.
module RestoreBackup {
  import opened Text

  /** `content` is the set-up and the events; a record that was only created has none. */
  datatype Record = Record(id: Str, identity: Str, attempt: nat, gameKey: Str, content: Option<nat>, completed: bool)

  /** A stored row: one this build can read, or one it cannot, which still owns its id. */
  datatype Stored = Readable(record: Record) | Unreadable(gameKey: Str, bytes: nat)

  function KeyOf(row: Stored): Str { if row.Readable? then row.record.gameKey else row.gameKey }

  /** What is on the device: rows by id, fast journals by game key, and whether the rows are a database. */
  datatype Device = Device(rows: map<Str, Stored>, journals: map<Str, nat>, durable: bool)

  datatype Listing = Lists | ReadsAsEmpty | Throws

  /**
   * What the browser's storage does this time. A database read that fails answers as though the row were
   * not there, and a write that fails changes nothing; `readFails(n)` is about the n-th slot tried.
   */
  datatype Faults = Faults(
    listing: Listing, readFails: nat -> bool, writeLost: bool, journalTakes: bool,
    updateReadFails: bool, updateLost: bool, laterThrows: bool, removeReadFails: bool, removeLost: bool)

  const TRIES := 100
  const HASH: Unit := 35
  const UNDERSCORE: Unit := 95

  /** `recordId`. */
  function Slot(identity: Str, attempt: nat): Str
  {
    if attempt <= 1 then identity else identity + [HASH] + Decimal(attempt)
  }

  predicate Kept(u: Unit) { IsAlnum(u) || u == UNDERSCORE || u == 46 || u == 58 || u == HASH || u == 45 }

  /** `replace(/[^\w.:#-]+/g, '_')`. */
  function Sanitize(s: Str): Str
  {
    if s == [] then []
    else if Kept(s[0]) then [s[0]] + Sanitize(s[1..])
    else if |s| > 1 && !Kept(s[1]) then Sanitize(s[1..])
    else [UNDERSCORE] + Sanitize(s[1..])
  }

  function NewRecord(identity: Str, attempt: nat): Record
  {
    Record(Slot(identity, attempt), identity, attempt, Sanitize(Slot(identity, attempt)), None, false)
  }

  /** The slot looks taken to `create`. */
  predicate LooksTaken(d: Device, identity: Str, attempt: nat, readFails: bool)
  {
    Slot(identity, attempt) in d.rows && !(d.durable && readFails)
  }

  /** Which tries look taken. */
  function Looks(d: Device, identity: Str, from: nat, f: Faults): nat -> bool
  {
    (n: nat) => LooksTaken(d, identity, from + n, f.readFails(n))
  }

  /** The first try from the n-th on that does not look taken, if one of the hundred does not. */
  function FirstOpen(looks: nat -> bool, n: nat): (r: Option<nat>)
    requires n <= TRIES
    ensures r.Some? ==> n <= r.value < TRIES && !looks(r.value)
    decreases TRIES - n
  {
    if n == TRIES then None else if looks(n) then FirstOpen(looks, n + 1) else Some(n)
  }

  function PutRow(d: Device, r: Record): Device { d.(rows := d.rows[r.id := Readable(r)]) }

  /** The attempt a record is created for: that of the first open slot, if the write takes. */
  function Chosen(d: Device, identity: Str, from: nat, f: Faults): Option<nat>
  {
    var open := FirstOpen(Looks(d, identity, from, f), 0);
    if open.None? || (d.durable && f.writeLost) then None else Some(from + open.value)
  }

  function Insert(d: Device, identity: Str, attempt: Option<nat>): (Device, Option<Record>)
  {
    if attempt.None? then (d, None)
    else (PutRow(d, NewRecord(identity, attempt.value)), Some(NewRecord(identity, attempt.value)))
  }

  /** The attempt to create a record under the first open slot. */
  function Create(d: Device, identity: Str, from: nat, f: Faults): (Device, Option<Record>)
  {
    Insert(d, identity, Chosen(d, identity, from, f))
  }

  function SaveJournal(d: Device, r: Record, content: nat, takes: bool): Device
  {
    if takes && r.gameKey != [] then d.(journals := d.journals[r.gameKey := content]) else d
  }

  /** Whether `update` finds and keeps the new row's content. */
  predicate Updates(d: Device, r: Record, f: Faults)
  {
    r.id in d.rows && d.rows[r.id].Readable? && !(d.durable && (f.updateReadFails || f.updateLost))
  }

  function Filled(r: Record, content: nat): Record { r.(content := Some(content)) }

  function Update(d: Device, r: Record, content: nat, f: Faults): Device
  {
    if Updates(d, r, f) then PutRow(d, Filled(d.rows[r.id].record, content)) else d
  }

  datatype Result =
    | Restored(record: Record, journalSaved: bool)
    | NotRestored(created: Option<Record>, journalSaved: bool)

  function RecoveryRestore(d: Device, identity: Str, content: nat, from: nat, f: Faults): (Device, Result)
  {
    if f.listing.Throws? then (d, NotRestored(None, false))
    else
      var (after, created) := Create(d, identity, from, f);
      if created.None? then (after, NotRestored(None, false))
      else
        var r := created.value;
        var saved := f.journalTakes && r.gameKey != [];
        var journalled := SaveJournal(after, r, content, f.journalTakes);
        if Updates(journalled, r, f) && !f.laterThrows
        then (Update(journalled, r, content, f), Restored(Filled(r, content), saved))
        else (Update(journalled, r, content, f), NotRestored(Some(r), saved))
  }

  function Remove(d: Device, id: Str, f: Faults): Device
  {
    var found := id in d.rows && !(d.durable && f.removeReadFails);
    var cleared := if found then d.(journals := d.journals - {KeyOf(d.rows[id])}) else d;
    if d.durable && f.removeLost then cleared else cleared.(rows := cleared.rows - {id})
  }

  /** The application's version: None is the failure notice, Some the record it opens. */
  function AppRestore(d: Device, identity: Str, content: nat, from: nat, f: Faults): (Device, Option<Record>)
  {
    if f.listing.Throws? then (d, None)
    else
      var (after, created) := Create(d, identity, from, f);
      if created.None? then (after, None)
      else
        var r := created.value;
        var journalled := SaveJournal(after, r, content, f.journalTakes);
        if Updates(journalled, r, f) then (Update(journalled, r, content, f), Some(Filled(r, content)))
        else if f.journalTakes && r.gameKey != [] then (journalled, Some(r))
        else (Remove(journalled, r.id, f), None)
  }

  predicate IsAttempt(row: Stored, identity: Str) { row.Readable? && row.record.identity == identity }

  /** One above every attempt at this game that can be read; one when there is none. */
  ghost predicate IsStart(rows: map<Str, Stored>, identity: Str, from: nat)
  {
    && from >= 1
    && (forall id :: id in rows && IsAttempt(rows[id], identity) ==> rows[id].record.attempt < from)
    && (from > 1 ==> exists id :: id in rows && IsAttempt(rows[id], identity) && rows[id].record.attempt == from - 1)
  }

  ghost predicate StartsAt(d: Device, identity: Str, f: Faults, from: nat)
  {
    if f.listing.Lists? then IsStart(d.rows, identity, from) else from == 1
  }

  // --- the search for a slot ------------------------------------------------------------------------

  predicate TryTaken(d: Device, identity: Str, from: nat, f: Faults, n: nat)
  {
    LooksTaken(d, identity, from + n, f.readFails(n))
  }

  /** The n-th try is the first that does not look taken. */
  ghost predicate OpensAt(looks: nat -> bool, n: nat)
  {
    n < TRIES && !looks(n) && forall m: nat :: m < n ==> looks(m)
  }

  lemma {:induction false} SearchFinds(looks: nat -> bool, k: nat, n: nat)
    requires OpensAt(looks, n) && k <= n
    ensures FirstOpen(looks, k) == Some(n)
    decreases n - k
  {
    if k < n {
      SearchFinds(looks, k + 1, n);
    }
  }

  lemma {:induction false} SearchStopsAtFirst(looks: nat -> bool, k: nat, m: nat)
    requires k <= m < TRIES && (FirstOpen(looks, k).None? || m < FirstOpen(looks, k).value)
    ensures looks(m)
    decreases m - k
  {
    if k < m {
      SearchStopsAtFirst(looks, k + 1, m);
    }
  }

  lemma FirstOpenExactlyWhen(looks: nat -> bool, n: nat)
    ensures FirstOpen(looks, 0) == Some(n) <==> OpensAt(looks, n)
  {
    if OpensAt(looks, n) {
      SearchFinds(looks, 0, n);
    }
    if FirstOpen(looks, 0) == Some(n) {
      forall m: nat | m < n ensures looks(m) {
        SearchStopsAtFirst(looks, 0, m);
      }
    }
  }

  /** The n-th slot is the first that looks open. */
  ghost predicate LooksOpenFirst(d: Device, identity: Str, from: nat, f: Faults, n: nat)
  {
    OpensAt(Looks(d, identity, from, f), n)
  }

  lemma OpenFirst(d: Device, identity: Str, from: nat, f: Faults, n: nat)
    ensures LooksOpenFirst(d, identity, from, f, n) <==>
      n < TRIES && !TryTaken(d, identity, from, f, n) && forall m: nat :: m < n ==> TryTaken(d, identity, from, f, m)
  {
    var looks := Looks(d, identity, from, f);
    assert forall m: nat :: looks(m) == TryTaken(d, identity, from, f, m);
  }

  lemma CreateAt(d: Device, identity: Str, from: nat, f: Faults, n: nat)
    requires LooksOpenFirst(d, identity, from, f, n)
    ensures Chosen(d, identity, from, f) == if d.durable && f.writeLost then None else Some(from + n)
  {
    FirstOpenExactlyWhen(Looks(d, identity, from, f), n);
  }

  lemma NothingOpen(d: Device, identity: Str, from: nat, f: Faults)
    ensures (forall n: nat :: !LooksOpenFirst(d, identity, from, f, n)) ==> Chosen(d, identity, from, f) == None
  {
    var open := FirstOpen(Looks(d, identity, from, f), 0);
    if open.Some? {
      FirstOpenExactlyWhen(Looks(d, identity, from, f), open.value);
      assert LooksOpenFirst(d, identity, from, f, open.value);
    }
  }

  /** The first n slots look taken. */
  ghost predicate SearchedTo(d: Device, identity: Str, from: nat, f: Faults, n: nat)
  {
    n <= TRIES && forall m: nat :: m < n ==> TryTaken(d, identity, from, f, m)
  }

  lemma SearchStep(d: Device, identity: Str, from: nat, f: Faults, n: nat)
    requires n < TRIES && SearchedTo(d, identity, from, f, n)
    ensures TryTaken(d, identity, from, f, n) ==> SearchedTo(d, identity, from, f, n + 1)
    ensures !TryTaken(d, identity, from, f, n) ==>
      Chosen(d, identity, from, f) == if d.durable && f.writeLost then None else Some(from + n)
  {
    if !TryTaken(d, identity, from, f, n) {
      OpenFirst(d, identity, from, f, n);
      CreateAt(d, identity, from, f, n);
    }
  }

  lemma SearchedAll(d: Device, identity: Str, from: nat, f: Faults)
    requires SearchedTo(d, identity, from, f, TRIES)
    ensures Chosen(d, identity, from, f) == None
  {
    forall n: nat ensures !LooksOpenFirst(d, identity, from, f, n) {
      OpenFirst(d, identity, from, f, n);
      assert n < TRIES ==> TryTaken(d, identity, from, f, n);
    }
    NothingOpen(d, identity, from, f);
  }

  // --- the store ------------------------------------------------------------------------------------

  class Shelf {
    var rows: map<Str, Stored>
    var journals: map<Str, nat>
    const durable: bool

    function View(): Device
      reads this
    {
      Device(rows, journals, durable)
    }

    constructor (d: Device)
      ensures View() == d
    {
      rows, journals, durable := d.rows, d.journals, d.durable;
    }

    /** One above the greatest attempt `findByIdentity` shows. */
    method NextAttempt(identity: Str) returns (from: nat)
      ensures IsStart(rows, identity, from)
    {
      from := 1;
      var left := rows.Keys;
      while left != {}
        invariant left <= rows.Keys && from >= 1
        invariant forall id :: id in rows && id !in left && IsAttempt(rows[id], identity) ==>
          rows[id].record.attempt < from
        invariant from > 1 ==>
          exists id :: id in rows && IsAttempt(rows[id], identity) && rows[id].record.attempt == from - 1
      {
        var id :| id in left;
        left := left - {id};
        if IsAttempt(rows[id], identity) && rows[id].record.attempt >= from {
          from := rows[id].record.attempt + 1;
        }
      }
    }

    /** `GameStore.create`: a taken slot is a conflict, a lost write is an error. */
    method CreateRow(identity: Str, attempt: nat, readFails: bool, writeLost: bool)
      returns (conflict: bool, created: Option<Record>)
      modifies `rows
      ensures conflict == LooksTaken(old(View()), identity, attempt, readFails)
      ensures (View(), created)
        == Insert(old(View()), identity, if conflict || (durable && writeLost) then None else Some(attempt))
    {
      if Slot(identity, attempt) in rows && !(durable && readFails) {
        return true, None;
      }
      if durable && writeLost {
        return false, None;
      }
      var r := NewRecord(identity, attempt);
      rows := rows[r.id := Readable(r)];
      return false, Some(r);
    }

    /** The search for a slot, the same in both versions. */
    method FindSlot(identity: Str, from: nat, f: Faults) returns (created: Option<Record>)
      modifies `rows
      ensures (View(), created) == Create(old(View()), identity, from, f)
    {
      ghost var d := View();
      var attempt := from;
      for tries := 0 to TRIES
        invariant View() == d && attempt == from + tries
        invariant SearchedTo(d, identity, from, f, tries)
      {
        var conflict;
        conflict, created := CreateRow(identity, attempt, f.readFails(tries), f.writeLost);
        SearchStep(d, identity, from, f, tries);
        if !conflict {
          return;
        }
        attempt := attempt + 1;
      }
      SearchedAll(d, identity, from, f);
      return None;
    }

    method SaveGame(r: Record, content: nat, takes: bool) returns (saved: bool)
      modifies `journals
      ensures View() == SaveJournal(old(View()), r, content, takes) && saved == (takes && r.gameKey != [])
    {
      saved := takes && r.gameKey != [];
      if saved {
        journals := journals[r.gameKey := content];
      }
    }

    method UpdateRow(r: Record, content: nat, f: Faults) returns (updated: bool)
      modifies `rows
      ensures View() == Update(old(View()), r, content, f) && updated == Updates(old(View()), r, f)
    {
      updated := false;
      if r.id in rows && rows[r.id].Readable? && !(durable && f.updateReadFails) {
        if !(durable && f.updateLost) {
          var next := Filled(rows[r.id].record, content);
          rows := rows[next.id := Readable(next)];
          updated := true;
        }
      }
    }

    method RestoreAsSeparateAttempt(identity: Str, content: nat, f: Faults) returns (result: Result, ghost from: nat)
      modifies this
      ensures StartsAt(old(View()), identity, f, from)
      ensures (View(), result) == RecoveryRestore(old(View()), identity, content, from, f)
    {
      var first: nat := 1;
      if f.listing.Lists? {
        first := NextAttempt(identity);
      }
      from := first;
      if f.listing.Throws? {
        return NotRestored(None, false), from;
      }
      var created := FindSlot(identity, first, f);
      if created.None? {
        return NotRestored(None, false), from;
      }
      var saved := SaveGame(created.value, content, f.journalTakes);
      var updated := UpdateRow(created.value, content, f);
      if updated && !f.laterThrows {
        return Restored(Filled(created.value, content), saved), from;
      }
      return NotRestored(created, saved), from;
    }

    method RemoveRow(id: Str, f: Faults)
      modifies this
      ensures View() == Remove(old(View()), id, f)
    {
      if id in rows && !(durable && f.removeReadFails) {
        journals := journals - {KeyOf(rows[id])};
      }
      if !(durable && f.removeLost) {
        rows := rows - {id};
      }
    }

    method RestoreInApp(identity: Str, content: nat, f: Faults) returns (shown: Option<Record>, ghost from: nat)
      modifies this
      ensures StartsAt(old(View()), identity, f, from)
      ensures (View(), shown) == AppRestore(old(View()), identity, content, from, f)
    {
      var first: nat := 1;
      if f.listing.Lists? {
        first := NextAttempt(identity);
      }
      from := first;
      if f.listing.Throws? {
        return None, from;
      }
      var created := FindSlot(identity, first, f);
      if created.None? {
        return None, from;
      }
      var saved := SaveGame(created.value, content, f.journalTakes);
      var updated := UpdateRow(created.value, content, f);
      if updated {
        return Some(Filled(created.value, content)), from;
      }
      if saved {
        return created, from;
      }
      RemoveRow(created.value.id, f);
      return None, from;
    }
  }

  // --- which slot is chosen -------------------------------------------------------------------------

  lemma SlotsDiffer(identity: Str, a: nat, b: nat)
    requires 1 <= a && 1 <= b && Slot(identity, a) == Slot(identity, b)
    ensures a == b
  {
    if a > 1 && b > 1 {
      assert Slot(identity, a)[|identity| + 1..] == Decimal(a);
      assert Slot(identity, b)[|identity| + 1..] == Decimal(b);
      DecimalInjective(a, b);
    }
  }

  /** No read of a slot fails. */
  ghost predicate ReadsHold(d: Device, f: Faults)
  {
    d.durable ==> forall n: nat :: n < TRIES ==> !f.readFails(n)
  }

  predicate FreeAt(d: Device, identity: Str, attempt: nat) { Slot(identity, attempt) !in d.rows }

  lemma TakenMeansTaken(d: Device, identity: Str, from: nat, f: Faults, m: nat)
    requires ReadsHold(d, f) && m < TRIES
    ensures LooksTaken(d, identity, from + m, f.readFails(m)) <==> !FreeAt(d, identity, from + m)
  {
  }

  /** While reads hold, the first slot that looks open is the first free one. */
  lemma OpenIsLeastFree(d: Device, identity: Str, from: nat, f: Faults)
    requires ReadsHold(d, f)
    ensures
      var open := FirstOpen(Looks(d, identity, from, f), 0);
      && (open.Some? ==> FreeAt(d, identity, from + open.value))
      && forall a: nat :: from <= a < from + (if open.Some? then open.value else TRIES) ==> !FreeAt(d, identity, a)
  {
    var looks := Looks(d, identity, from, f);
    var open := FirstOpen(looks, 0);
    FirstOpenIsFirst(looks);
    NotFreeUpTo(d, identity, from, f, if open.Some? then open.value else TRIES);
    if open.Some? {
      TakenMeansTaken(d, identity, from, f, open.value);
    }
  }

  lemma NotFreeUpTo(d: Device, identity: Str, from: nat, f: Faults, end: nat)
    requires ReadsHold(d, f) && end <= TRIES && forall m: nat :: m < end ==> Looks(d, identity, from, f)(m)
    ensures forall a: nat :: from <= a < from + end ==> !FreeAt(d, identity, a)
  {
    forall a: nat | from <= a < from + end ensures !FreeAt(d, identity, a) {
      assert Looks(d, identity, from, f)(a - from);
      TakenMeansTaken(d, identity, from, f, a - from);
    }
  }

  lemma FirstOpenIsFirst(looks: nat -> bool)
    ensures forall m: nat :: m < (if FirstOpen(looks, 0).Some? then FirstOpen(looks, 0).value else TRIES) ==> looks(m)
  {
    forall m: nat | m < (if FirstOpen(looks, 0).Some? then FirstOpen(looks, 0).value else TRIES) ensures looks(m) {
      SearchStopsAtFirst(looks, 0, m);
    }
  }

  /**
   * While reads hold, a record is created exactly when one of the hundred slots is free and the write is
   * not lost, and it takes the first free one: the least attempt above every attempt that can be read.
   */
  lemma TakesTheLeastFreeSlot(d: Device, identity: Str, from: nat, f: Faults)
    requires ReadsHold(d, f) && from >= 1
    ensures
      var created := Create(d, identity, from, f).1;
      && (created.Some? <==>
            !(d.durable && f.writeLost) && exists a: nat :: from <= a < from + 100 && FreeAt(d, identity, a))
      && (created.Some? ==>
            && from <= created.value.attempt < from + 100
            && FreeAt(d, identity, created.value.attempt)
            && forall a: nat :: from <= a < created.value.attempt ==> !FreeAt(d, identity, a))
  {
    OpenIsLeastFree(d, identity, from, f);
  }

  // --- what happens to the other rows ---------------------------------------------------------------

  /** Every row there was is still there, as it was. */
  ghost predicate KeepsRows(before: Device, after: Device)
  {
    forall id :: id in before.rows ==> RowKept(before, after, id)
  }

  predicate RowKept(before: Device, after: Device, id: Str)
    requires id in before.rows
  {
    id in after.rows && after.rows[id] == before.rows[id]
  }

  /** Every slot before the n-th is taken and its read shows it; the n-th is taken too, but its read fails. */
  ghost predicate FirstMisread(d: Device, identity: Str, from: nat, f: Faults, n: nat)
  {
    && n < TRIES && d.durable
    && (forall m: nat :: m < n ==> SeenTaken(d, identity, from, f, m))
    && Slot(identity, from + n) in d.rows && f.readFails(n)
  }

  predicate SeenTaken(d: Device, identity: Str, from: nat, f: Faults, n: nat)
  {
    Slot(identity, from + n) in d.rows && !f.readFails(n)
  }

  /** What is written into a new slot in the end. */
  function Written(d: Device, identity: Str, attempt: nat, content: nat, f: Faults): Stored
  {
    var r := NewRecord(identity, attempt);
    Readable(if d.durable && (f.updateReadFails || f.updateLost) then r else Filled(r, content))
  }

  /** A taken slot is misread and written, and not, by chance, with the very row that stands there. */
  ghost predicate LosesRow(d: Device, identity: Str, content: nat, from: nat, f: Faults, n: nat)
  {
    && !f.listing.Throws? && !f.writeLost && FirstMisread(d, identity, from, f, n)
    && d.rows[Slot(identity, from + n)] != Written(d, identity, from + n, content, f)
  }

  /** What the application leaves in a new slot: nothing, if neither the journal nor the content was saved. */
  function AppWritten(d: Device, identity: Str, attempt: nat, content: nat, f: Faults): Option<Stored>
  {
    var r := NewRecord(identity, attempt);
    if !(d.durable && (f.updateReadFails || f.updateLost)) then Some(Readable(Filled(r, content)))
    else if (f.journalTakes && r.gameKey != []) || f.removeLost then Some(Readable(r))
    else None
  }

  /** The same for the application, which may take what it wrote away again. */
  ghost predicate AppLosesRow(d: Device, identity: Str, content: nat, from: nat, f: Faults, n: nat)
  {
    && !f.listing.Throws? && !f.writeLost && FirstMisread(d, identity, from, f, n)
    && AppWritten(d, identity, from + n, content, f) != Some(d.rows[Slot(identity, from + n)])
  }

  lemma MisreadLooksOpen(d: Device, identity: Str, from: nat, f: Faults, n: nat)
    ensures FirstMisread(d, identity, from, f, n)
       <==> LooksOpenFirst(d, identity, from, f, n) && Slot(identity, from + n) in d.rows
  {
    OpenFirst(d, identity, from, f, n);
    if LooksOpenFirst(d, identity, from, f, n) && Slot(identity, from + n) in d.rows {
      assert d.durable;
      forall m: nat | m < n ensures SeenTaken(d, identity, from, f, m) {
        assert TryTaken(d, identity, from, f, m);
      }
    }
    if FirstMisread(d, identity, from, f, n) {
      forall m: nat | m < n ensures TryTaken(d, identity, from, f, m) {
        assert SeenTaken(d, identity, from, f, m);
      }
    }
  }

  lemma WrittenAt(d: Device, identity: Str, content: nat, from: nat, f: Faults, n: nat)
    requires LooksOpenFirst(d, identity, from, f, n) && !f.listing.Throws? && !(d.durable && f.writeLost)
    ensures RecoveryRestore(d, identity, content, from, f).0.rows
         == d.rows[Slot(identity, from + n) := Written(d, identity, from + n, content, f)]
  {
    CreateAt(d, identity, from, f, n);
    RecoveryOutcome(d, identity, content, from, f, NewRecord(identity, from + n));
  }

  lemma RecoveryOutcome(d: Device, identity: Str, content: nat, from: nat, f: Faults, r: Record)
    requires !f.listing.Throws? && Create(d, identity, from, f) == (PutRow(d, r), Some(r))
    ensures
      var after := RecoveryRestore(d, identity, content, from, f).0;
      && after.rows ==
           (if d.durable && (f.updateReadFails || f.updateLost) then d.rows[r.id := Readable(r)]
            else d.rows[r.id := Readable(Filled(r, content))])
      && after.journals ==
           (if f.journalTakes && r.gameKey != [] then d.journals[r.gameKey := content] else d.journals)
  {
    var rows := d.rows[r.id := Readable(r)];
    assert rows[r.id := Readable(Filled(r, content))] == d.rows[r.id := Readable(Filled(r, content))];
  }

  /** Nothing is changed without a slot that looks open and a write that takes. */
  predicate Gets(d: Device, f: Faults) { !f.listing.Throws? && !(d.durable && f.writeLost) }

  lemma NothingChanges(d: Device, identity: Str, content: nat, from: nat, f: Faults)
    ensures !Gets(d, f) || (forall n: nat :: !LooksOpenFirst(d, identity, from, f, n)) ==>
      RecoveryRestore(d, identity, content, from, f).0 == d && AppRestore(d, identity, content, from, f).0 == d
  {
    NothingOpen(d, identity, from, f);
    if n: nat :| LooksOpenFirst(d, identity, from, f, n) {
      CreateAt(d, identity, from, f, n);
    }
  }

  lemma AppWrittenAt(d: Device, identity: Str, content: nat, from: nat, f: Faults, n: nat)
    requires LooksOpenFirst(d, identity, from, f, n) && Gets(d, f)
    ensures
      var slot, written := Slot(identity, from + n), AppWritten(d, identity, from + n, content, f);
      AppRestore(d, identity, content, from, f).0.rows
        == if written.Some? then d.rows[slot := written.value] else d.rows - {slot}
  {
    CreateAt(d, identity, from, f, n);
    AppOutcome(d, identity, content, from, f, NewRecord(identity, from + n));
  }

  lemma AppOutcome(d: Device, identity: Str, content: nat, from: nat, f: Faults, r: Record)
    requires !f.listing.Throws? && Create(d, identity, from, f) == (PutRow(d, r), Some(r))
    ensures
      var after, saved := AppRestore(d, identity, content, from, f).0, f.journalTakes && r.gameKey != [];
      var updated := !(d.durable && (f.updateReadFails || f.updateLost));
      && after.rows ==
           (if updated then d.rows[r.id := Readable(Filled(r, content))]
            else if saved || f.removeLost then d.rows[r.id := Readable(r)]
            else d.rows - {r.id})
      && after.journals ==
           (if saved then d.journals[r.gameKey := content]
            else if updated || f.removeReadFails then d.journals
            else d.journals - {r.gameKey})
  {
    var rows := d.rows[r.id := Readable(r)];
    assert rows[r.id := Readable(Filled(r, content))] == d.rows[r.id := Readable(Filled(r, content))];
    assert rows - {r.id} == d.rows - {r.id};
  }

  /** Whatever fails, no row but the one in the slot that first looks open changes, on either path. */
  lemma RestoreChangesOneRow(d: Device, identity: Str, content: nat, from: nat, f: Faults, id: Str)
    requires id in d.rows
    requires forall n: nat :: LooksOpenFirst(d, identity, from, f, n) ==> id != Slot(identity, from + n)
    ensures RowKept(d, RecoveryRestore(d, identity, content, from, f).0, id)
    ensures RowKept(d, AppRestore(d, identity, content, from, f).0, id)
  {
    if n: nat :| LooksOpenFirst(d, identity, from, f, n) && Gets(d, f) {
      WrittenAt(d, identity, content, from, f, n);
      AppWrittenAt(d, identity, content, from, f, n);
    } else {
      NothingChanges(d, identity, content, from, f);
    }
  }

  /**
   * Every existing row is kept exactly when no taken slot is the first to look open while the write takes.
   * The attempt tried first being above every attempt listed, a row in the way always differs from the new one.
   */
  lemma RecoveryKeepsRowsExactlyWhen(d: Device, identity: Str, content: nat, from: nat, f: Faults)
    ensures KeepsRows(d, RecoveryRestore(d, identity, content, from, f).0)
       <==> forall n: nat :: !LosesRow(d, identity, content, from, f, n)
    ensures IsStart(d.rows, identity, from) ==>
      forall n: nat :: LosesRow(d, identity, content, from, f, n)
                  <==> !f.listing.Throws? && !f.writeLost && FirstMisread(d, identity, from, f, n)
  {
    if n: nat :| LosesRow(d, identity, content, from, f, n) {
      MisreadLooksOpen(d, identity, from, f, n);
      WrittenAt(d, identity, content, from, f, n);
      assert !RowKept(d, RecoveryRestore(d, identity, content, from, f).0, Slot(identity, from + n));
    } else {
      KeptUnlessLost(d, identity, content, from, f);
    }
  }

  lemma KeptUnlessLost(d: Device, identity: Str, content: nat, from: nat, f: Faults)
    requires forall n: nat :: !LosesRow(d, identity, content, from, f, n)
    ensures KeepsRows(d, RecoveryRestore(d, identity, content, from, f).0)
  {
    NothingOpen(d, identity, from, f);
    if n: nat :| LooksOpenFirst(d, identity, from, f, n) && !f.listing.Throws? && !(d.durable && f.writeLost) {
      MisreadLooksOpen(d, identity, from, f, n);
      WrittenAt(d, identity, content, from, f, n);
      assert !LosesRow(d, identity, content, from, f, n);
    } else if n: nat :| LooksOpenFirst(d, identity, from, f, n) {
      CreateAt(d, identity, from, f, n);
    }
  }

  /**
   * The application keeps every row under the same condition: it overwrites one, or writes over one and then
   * deletes it, exactly when a taken slot is misread and the write takes.
   */
  lemma AppKeepsRowsExactlyWhen(d: Device, identity: Str, content: nat, from: nat, f: Faults)
    ensures KeepsRows(d, AppRestore(d, identity, content, from, f).0)
       <==> forall n: nat :: !AppLosesRow(d, identity, content, from, f, n)
    ensures IsStart(d.rows, identity, from) ==>
      forall n: nat :: AppLosesRow(d, identity, content, from, f, n)
                  <==> !f.listing.Throws? && !f.writeLost && FirstMisread(d, identity, from, f, n)
  {
    if n: nat :| LooksOpenFirst(d, identity, from, f, n) && Gets(d, f) {
      MisreadLooksOpen(d, identity, from, f, n);
      AppWrittenAt(d, identity, content, from, f, n);
      forall k: nat | AppLosesRow(d, identity, content, from, f, k) ensures k == n {
        MisreadLooksOpen(d, identity, from, f, k);
        OpenOnce(d, identity, from, f, k, n);
      }
      var slot := Slot(identity, from + n);
      assert slot in d.rows && !AppLosesRow(d, identity, content, from, f, n) ==>
        RowKept(d, AppRestore(d, identity, content, from, f).0, slot);
      assert AppLosesRow(d, identity, content, from, f, n) ==>
        !RowKept(d, AppRestore(d, identity, content, from, f).0, slot);
    } else {
      NothingChanges(d, identity, content, from, f);
      forall n: nat ensures !AppLosesRow(d, identity, content, from, f, n) {
        MisreadLooksOpen(d, identity, from, f, n);
      }
    }
  }

  /** A restore that ends with the notice that nothing was overwritten, having deleted a row this build cannot read. */
  lemma FailureLosesARow(d: Device, identity: Str, content: nat, from: nat, f: Faults)
    requires d.durable && !f.listing.Throws? && f.readFails(0) && !f.writeLost
    requires f.updateLost && !f.journalTakes && !f.removeLost
    requires Slot(identity, from) in d.rows && d.rows[Slot(identity, from)].Unreadable?
    ensures AppRestore(d, identity, content, from, f).1.None?
    ensures Slot(identity, from) !in AppRestore(d, identity, content, from, f).0.rows
  {
    OpenFirst(d, identity, from, f, 0);
    CreateAt(d, identity, from, f, 0);
    AppWrittenAt(d, identity, content, from, f, 0);
  }

  lemma OpenOnce(d: Device, identity: Str, from: nat, f: Faults, k: nat, n: nat)
    requires LooksOpenFirst(d, identity, from, f, k) && LooksOpenFirst(d, identity, from, f, n)
    ensures k == n
  {
    SearchFinds(Looks(d, identity, from, f), 0, k);
    SearchFinds(Looks(d, identity, from, f), 0, n);
  }

  /** So every row is kept while reads hold. */
  lemma RecoveryKeepsRows(d: Device, identity: Str, content: nat, from: nat, f: Faults)
    requires ReadsHold(d, f)
    ensures KeepsRows(d, RecoveryRestore(d, identity, content, from, f).0)
  {
    assert forall n: nat :: !LosesRow(d, identity, content, from, f, n);
    RecoveryKeepsRowsExactlyWhen(d, identity, content, from, f);
  }

  /**
   * A failed read is answered as an empty slot: if the first read fails and the write takes, a row this
   * build cannot even read is overwritten by the restored one.
   */
  lemma FailedReadOverwrites(d: Device, identity: Str, content: nat, from: nat, f: Faults)
    requires d.durable && !f.listing.Throws? && f.readFails(0) && !f.writeLost
    requires Slot(identity, from) in d.rows && d.rows[Slot(identity, from)].Unreadable?
    ensures !RowKept(d, RecoveryRestore(d, identity, content, from, f).0, Slot(identity, from))
    ensures
      var after := RecoveryRestore(d, identity, content, from, f).0;
      Slot(identity, from) in after.rows && after.rows[Slot(identity, from)].Readable?
  {
    OpenFirst(d, identity, from, f, 0);
    WrittenAt(d, identity, content, from, f, 0);
  }

  // --- what happens to the journals -----------------------------------------------------------------

  predicate AllKept(s: Str) { forall i :: 0 <= i < |s| ==> Kept(s[i]) }

  lemma {:induction false} SanitizedIsKept(s: Str)
    ensures AllKept(Sanitize(s))
  {
    if s != [] {
      SanitizedIsKept(s[1..]);
    }
  }

  lemma {:induction false} SanitizeKeeps(s: Str)
    requires AllKept(s)
    ensures Sanitize(s) == s
  {
    if s != [] {
      SanitizeKeeps(s[1..]);
    }
  }

  /** A game key is a game key already; two ids of kept characters only never share one. */
  lemma SanitizeOnce(s: Str, t: Str)
    ensures Sanitize(Sanitize(s)) == Sanitize(s)
    ensures AllKept(s) && AllKept(t) && Sanitize(s) == Sanitize(t) ==> s == t
  {
    SanitizedIsKept(s);
    SanitizeKeeps(Sanitize(s));
    if AllKept(s) && AllKept(t) {
      SanitizeKeeps(s);
      SanitizeKeeps(t);
    }
  }

  ghost predicate KeepsJournals(before: Device, after: Device)
  {
    forall k :: k in before.journals ==> JournalKept(before, after, k)
  }

  predicate JournalKept(before: Device, after: Device, key: Str)
    requires key in before.journals
  {
    key in after.journals && after.journals[key] == before.journals[key]
  }

  /** The new slot's game key is that of a journal saying something else, and both writes take. */
  ghost predicate LosesJournal(d: Device, identity: Str, content: nat, from: nat, f: Faults, n: nat)
  {
    var key := Sanitize(Slot(identity, from + n));
    && !f.listing.Throws? && !(d.durable && f.writeLost) && f.journalTakes
    && LooksOpenFirst(d, identity, from, f, n)
    && key != [] && key in d.journals && d.journals[key] != content
  }

  lemma JournalsAt(d: Device, identity: Str, content: nat, from: nat, f: Faults, n: nat)
    requires LooksOpenFirst(d, identity, from, f, n) && !f.listing.Throws? && !(d.durable && f.writeLost)
    ensures RecoveryRestore(d, identity, content, from, f).0.journals
         == if f.journalTakes && Sanitize(Slot(identity, from + n)) != []
            then d.journals[Sanitize(Slot(identity, from + n)) := content] else d.journals
  {
    CreateAt(d, identity, from, f, n);
    RecoveryOutcome(d, identity, content, from, f, NewRecord(identity, from + n));
  }

  lemma AppJournalsAt(d: Device, identity: Str, content: nat, from: nat, f: Faults, n: nat)
    requires LooksOpenFirst(d, identity, from, f, n) && Gets(d, f)
    ensures
      var key := Sanitize(Slot(identity, from + n));
      AppRestore(d, identity, content, from, f).0.journals
        == if f.journalTakes && key != [] then d.journals[key := content]
           else if !(d.durable && (f.updateReadFails || f.updateLost)) || f.removeReadFails then d.journals
           else d.journals - {key}
  {
    CreateAt(d, identity, from, f, n);
    AppOutcome(d, identity, content, from, f, NewRecord(identity, from + n));
  }

  /** Every journal is kept exactly when the slot that first looks open has no other journal's game key. */
  lemma RecoveryKeepsJournalsExactlyWhen(d: Device, identity: Str, content: nat, from: nat, f: Faults)
    ensures KeepsJournals(d, RecoveryRestore(d, identity, content, from, f).0)
       <==> forall n: nat :: !LosesJournal(d, identity, content, from, f, n)
  {
    if n: nat :| LooksOpenFirst(d, identity, from, f, n) && !f.listing.Throws? && !(d.durable && f.writeLost) {
      JournalsAt(d, identity, content, from, f, n);
      forall k: nat | LooksOpenFirst(d, identity, from, f, k) ensures k == n {
        OpenOnce(d, identity, from, f, k, n);
      }
      assert KeepsJournals(d, RecoveryRestore(d, identity, content, from, f).0)
        <==> !LosesJournal(d, identity, content, from, f, n);
    } else {
      NothingOpen(d, identity, from, f);
      if n: nat :| LooksOpenFirst(d, identity, from, f, n) {
        CreateAt(d, identity, from, f, n);
      }
    }
  }

  /** The journal the application loses: replaced, or cleared with the row it takes away again. */
  ghost predicate AppLosesJournal(d: Device, identity: Str, content: nat, from: nat, f: Faults, n: nat)
  {
    var key := Sanitize(Slot(identity, from + n));
    && Gets(d, f) && LooksOpenFirst(d, identity, from, f, n) && key in d.journals
    && if f.journalTakes && key != [] then d.journals[key] != content
       else d.durable && (f.updateReadFails || f.updateLost) && !f.removeReadFails
  }

  /** Whatever fails, no journal changes but the one under the new slot's game key, on either path. */
  lemma RestoreChangesOneJournal(d: Device, identity: Str, content: nat, from: nat, f: Faults, key: Str)
    requires key in d.journals
    requires forall n: nat :: LooksOpenFirst(d, identity, from, f, n) ==> key != Sanitize(Slot(identity, from + n))
    ensures JournalKept(d, RecoveryRestore(d, identity, content, from, f).0, key)
    ensures JournalKept(d, AppRestore(d, identity, content, from, f).0, key)
  {
    if n: nat :| LooksOpenFirst(d, identity, from, f, n) && Gets(d, f) {
      JournalsAt(d, identity, content, from, f, n);
      AppJournalsAt(d, identity, content, from, f, n);
    } else {
      NothingChanges(d, identity, content, from, f);
    }
  }

  /** What becomes of the journals when the n-th slot is taken. */
  lemma AppJournalFate(d: Device, identity: Str, content: nat, from: nat, f: Faults, n: nat)
    requires LooksOpenFirst(d, identity, from, f, n) && Gets(d, f)
    ensures
      var after, key := AppRestore(d, identity, content, from, f).0, Sanitize(Slot(identity, from + n));
      && (forall k :: k in d.journals && k != key ==> JournalKept(d, after, k))
      && (key in d.journals ==> (JournalKept(d, after, key) <==> !AppLosesJournal(d, identity, content, from, f, n)))
  {
    AppJournalsAt(d, identity, content, from, f, n);
  }

  /** The application keeps every journal exactly when it neither replaces nor clears that of another game. */
  lemma AppKeepsJournalsExactlyWhen(d: Device, identity: Str, content: nat, from: nat, f: Faults)
    ensures KeepsJournals(d, AppRestore(d, identity, content, from, f).0)
       <==> forall n: nat :: !AppLosesJournal(d, identity, content, from, f, n)
  {
    if n: nat :| LooksOpenFirst(d, identity, from, f, n) && Gets(d, f) {
      AppJournalFate(d, identity, content, from, f, n);
      forall k: nat | AppLosesJournal(d, identity, content, from, f, k) ensures k == n {
        OpenOnce(d, identity, from, f, k, n);
      }
    } else {
      NothingChanges(d, identity, content, from, f);
    }
  }

  /** Every journal stands under the game key of a row whose id consists of kept characters. */
  ghost predicate FiledPlainly(d: Device)
  {
    forall k :: k in d.journals ==> exists id :: id in d.rows && AllKept(id) && k == Sanitize(id)
  }

  lemma {:induction false} DecimalIsKept(n: nat)
    ensures AllKept(Decimal(n))
  {
    if n >= 10 {
      DecimalIsKept(n / 10);
    }
  }

  lemma SlotIsKept(identity: Str, attempt: nat)
    requires AllKept(identity)
    ensures AllKept(Slot(identity, attempt))
  {
    DecimalIsKept(attempt);
  }

  lemma PlainKeyHasARow(d: Device, id: Str)
    requires AllKept(id) && FiledPlainly(d) && Sanitize(id) in d.journals
    ensures id in d.rows
  {
    var other :| other in d.rows && AllKept(other) && Sanitize(id) == Sanitize(other);
    SanitizeOnce(id, other);
  }

  lemma OpenIsFree(d: Device, identity: Str, from: nat, f: Faults, n: nat)
    requires ReadsHold(d, f) && LooksOpenFirst(d, identity, from, f, n)
    ensures Slot(identity, from + n) !in d.rows
  {
    TakenMeansTaken(d, identity, from, f, n);
  }

  /** With ids of kept characters only, and reads that hold, no journal is ever replaced. */
  lemma PlainIdsKeepJournals(d: Device, identity: Str, content: nat, from: nat, f: Faults)
    requires ReadsHold(d, f) && AllKept(identity) && FiledPlainly(d)
    ensures KeepsJournals(d, RecoveryRestore(d, identity, content, from, f).0)
    ensures KeepsJournals(d, AppRestore(d, identity, content, from, f).0)
  {
    forall n: nat | LooksOpenFirst(d, identity, from, f, n) ensures Sanitize(Slot(identity, from + n)) !in d.journals {
      OpenIsFree(d, identity, from, f, n);
      SlotIsKept(identity, from + n);
      if Sanitize(Slot(identity, from + n)) in d.journals {
        PlainKeyHasARow(d, Slot(identity, from + n));
      }
    }
    RecoveryKeepsJournalsExactlyWhen(d, identity, content, from, f);
    AppKeepsJournalsExactlyWhen(d, identity, content, from, f);
  }

  /** Otherwise another game whose id shares the new slot's game key loses its journal, with nothing failing. */
  lemma SharedKeyLosesTheJournal(d: Device, identity: Str, content: nat, from: nat, f: Faults, n: nat, other: Str)
    requires !f.listing.Throws? && ReadsHold(d, f) && !f.writeLost && f.journalTakes
    requires n < TRIES && FreeAt(d, identity, from + n)
    requires forall a: nat :: from <= a < from + n ==> !FreeAt(d, identity, a)
    requires other in d.rows && Sanitize(other) == Sanitize(Slot(identity, from + n)) && Sanitize(other) != []
    requires Sanitize(other) in d.journals && d.journals[Sanitize(other)] != content
    ensures
      var after := RecoveryRestore(d, identity, content, from, f).0;
      && other != Slot(identity, from + n) && RowKept(d, after, other)
      && Sanitize(other) in after.journals && after.journals[Sanitize(other)] == content
  {
    forall m: nat | m <= n ensures TryTaken(d, identity, from, f, m) <==> !FreeAt(d, identity, from + m) {
      TakenMeansTaken(d, identity, from, f, m);
    }
    OpenFirst(d, identity, from, f, n);
    JournalsAt(d, identity, content, from, f, n);
    RecoveryKeepsRows(d, identity, content, from, f);
  }

  lemma {:induction false} SanitizeSplit(s: Str, u: Unit)
    requires AllKept(s) && !Kept(u)
    ensures Sanitize(s + [u]) == s + [UNDERSCORE]
  {
    if s == [] {
      assert s + [u] == [u] && [u][1..] == [];
    } else {
      SanitizeSplit(s[1..], u);
      assert (s + [u])[1..] == s[1..] + [u];
    }
  }

  /** Ids that differ in one character that is not kept, as `match:7!` and `match:7?` do, have one game key. */
  lemma KeysCollide(s: Str, u: Unit, v: Unit)
    requires AllKept(s) && !Kept(u) && !Kept(v) && u != v
    ensures s + [u] != s + [v] && Sanitize(s + [u]) == Sanitize(s + [v]) && Sanitize(s + [u]) != []
  {
    SanitizeSplit(s, u);
    SanitizeSplit(s, v);
    assert (s + [u])[|s|] != (s + [v])[|s|];
  }

  /** A device with one game under way, filed under `id`. */
  function OneGame(id: Str, content: nat): Device
  {
    Device(map[id := Readable(NewRecord(id, 1))], map[Sanitize(id) := content], true)
  }

  /** With `KeysCollide`: a device with one game under way, whose journal a restore of another game replaces. */
  lemma SharedKeyOnADevice(a: Str, b: Str, f: Faults, mine: nat, other: nat)
    requires a != b && Sanitize(a) == Sanitize(b) && Sanitize(a) != [] && mine != other
    requires f.listing.Lists? && f.journalTakes && !f.writeLost && forall n :: !f.readFails(n)
    ensures IsStart(OneGame(b, other).rows, a, 1)
    ensures
      var after := RecoveryRestore(OneGame(b, other), a, mine, 1, f).0;
      Sanitize(b) in after.journals && after.journals[Sanitize(b)] == mine
  {
    SharedKeyLosesTheJournal(OneGame(b, other), a, mine, 1, f, 0, b);
  }

  // --- what the caller is told ----------------------------------------------------------------------

  /** What is reported saved is saved, in the row and, where it is said so, in the journal. */
  lemma RestoredIsSaved(d: Device, identity: Str, content: nat, from: nat, f: Faults)
    ensures
      var (after, result) := RecoveryRestore(d, identity, content, from, f);
      match result
      case Restored(r, saved) =>
        && r.id in after.rows && after.rows[r.id] == Readable(r) && r.content == Some(content)
        && (saved <==> f.journalTakes && r.gameKey != [])
        && (saved ==> r.gameKey in after.journals && after.journals[r.gameKey] == content)
      case NotRestored(Some(r), saved) =>
        && r.id in after.rows && after.rows[r.id].Readable?
        && (saved ==> r.gameKey in after.journals && after.journals[r.gameKey] == content)
      case NotRestored(None, saved) => after == d && !saved
  {
  }

  /** Where Recovery Mode succeeds, the application leaves the same device and opens the same record. */
  lemma AppAgrees(d: Device, identity: Str, content: nat, from: nat, f: Faults)
    requires RecoveryRestore(d, identity, content, from, f).1.Restored?
    ensures AppRestore(d, identity, content, from, f).0 == RecoveryRestore(d, identity, content, from, f).0
    ensures AppRestore(d, identity, content, from, f).1 == Some(RecoveryRestore(d, identity, content, from, f).1.record)
  {
  }

  /**
   * The application tries the same slot, changes no other row, and takes its new row away again exactly
   * when neither the journal nor the row's content was saved and the deletion takes.
   */
  lemma AppKeepsItsRecordExactlyWhen(d: Device, identity: Str, content: nat, from: nat, f: Faults)
    requires !f.listing.Throws? && Create(d, identity, from, f).1.Some?
    ensures
      var after, r := AppRestore(d, identity, content, from, f).0, Create(d, identity, from, f).1.value;
      var updated := !(d.durable && (f.updateReadFails || f.updateLost));
      var saved := f.journalTakes && r.gameKey != [];
      && (r.id in after.rows <==> updated || saved || (d.durable && f.removeLost))
      && (forall id :: id in d.rows && id != r.id ==> id in after.rows && after.rows[id] == d.rows[id])
      && (AppRestore(d, identity, content, from, f).1.Some? <==> updated || saved)
      && (saved ==> r.gameKey in after.journals && after.journals[r.gameKey] == content)
      && (updated ==> r.id in after.rows && after.rows[r.id] == Readable(Filled(r, content)))
  {
  }

  /** Giving up clears the journal under the new game key, whosever it is. */
  lemma GivingUpClearsTheKey(d: Device, identity: Str, content: nat, from: nat, f: Faults)
    requires !f.listing.Throws? && Create(d, identity, from, f).1.Some?
    requires AppRestore(d, identity, content, from, f).1.None?
    ensures
      var after, r := AppRestore(d, identity, content, from, f).0, Create(d, identity, from, f).1.value;
      && (forall k :: k in d.journals && k != r.gameKey ==> k in after.journals && after.journals[k] == d.journals[k])
      && (r.gameKey in d.journals ==> (r.gameKey !in after.journals <==> !(d.durable && f.removeReadFails)))
  {
  }

  /** A record that is created is an unfinished game without content, under the slot of its attempt. */
  lemma CreatedIsFresh(d: Device, identity: Str, from: nat, f: Faults)
    requires Create(d, identity, from, f).1.Some?
    ensures
      var r := Create(d, identity, from, f).1.value;
      && r.identity == identity && from <= r.attempt < from + 100 && r.id == Slot(identity, r.attempt)
      && r.gameKey == Sanitize(r.id) && r.content.None? && !r.completed
  {
  }
}
