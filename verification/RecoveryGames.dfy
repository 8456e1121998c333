// Recovery Mode's comparison of everything that is left of each game (src/app/RecoveryModeSupport.ts):
// records, fast journals, and checkpoints or external backups, merged into one entry for each game.
module RecoveryGames {
  import opened Text

  datatype SourceKind = Journal | Durable | Checkpoint | External

  datatype Status =
    Valid | Missing | Stale | Unsupported | Malformed | NeedsPermission | FolderUnavailable | BackupFailed

  /** `updatedAt` is None when it is missing or does not read as a date; `id` identifies the copy itself. */
  datatype Source = Source(id: Str, kind: SourceKind, status: Status, exact: bool, updatedAt: Option<int>)

  datatype Record = Record(id: Str, gameKey: Str, active: bool, updatedAt: Option<int>)

  datatype JournalEntry = JournalEntry(gameKey: Str, status: Status, updatedAt: Option<int>)

  /** One entry of the map of additional sources, in the map's order. */
  datatype Extra = Extra(gameKey: Str, sources: seq<Source>)

  /** `record:`, `journal:` or `source:` and what follows. */
  datatype EntryKey = OfRecord(id: Str) | OfJournal(gameKey: Str) | OfSource(gameKey: Str)

  datatype Game = Game(key: EntryKey, record: Option<Record>, sources: seq<Source>, resume: Option<SourceKind>)

  /** What a sort with an inconsistent comparison puts first. */
  type Pick = seq<Source> -> nat

  const NO_JOURNAL := Source([], Journal, Missing, false, None)

  function FromRecord(r: Record): Source { Source(r.id, Durable, Valid, true, r.updatedAt) }

  function FromJournal(e: JournalEntry): Source { Source(e.gameKey, Journal, e.status, e.status.Valid?, e.updatedAt) }

  // --- which copy to resume from --------------------------------------------------------------------

  predicate Usable(s: Source) { s.exact && s.status.Valid? }

  function UsableOf(sources: seq<Source>): seq<Source>
  {
    if sources == [] then []
    else (if Usable(sources[0]) then [sources[0]] else []) + UsableOf(sources[1..])
  }

  function FirstJournal(sources: seq<Source>): Option<Source>
  {
    if sources == [] then None
    else if sources[0].kind.Journal? then Some(sources[0])
    else FirstJournal(sources[1..])
  }

  predicate Dated(sources: seq<Source>) { forall s :: s in sources ==> s.updatedAt.Some? }

  /** The first element of a stable sort by time, newest first. */
  function Newest(sources: seq<Source>): (n: Source)
    requires sources != [] && Dated(sources)
    ensures n in sources
  {
    if |sources| == 1 then sources[0]
    else
      var later := Newest(sources[1..]);
      if later.updatedAt.value > sources[0].updatedAt.value then later else sources[0]
  }

  /**
   * The safest copy. Where some date does not read as a time the comparison is inconsistent and the sort's
   * order is up to the browser: `pick` stands for what it puts first.
   */
  function Safest(sources: seq<Source>, pick: Pick): Option<Source>
  {
    var usable := UsableOf(sources);
    if FirstJournal(usable).Some? then FirstJournal(usable)
    else if usable == [] then None
    else if Dated(usable) then Some(Newest(usable))
    else Some(usable[pick(usable) % |usable|])
  }

  function Resume(sources: seq<Source>, pick: Pick): Option<SourceKind>
  {
    var best := Safest(sources, pick);
    if best.Some? then Some(best.value.kind) else None
  }

  lemma {:induction false} UsableAre(sources: seq<Source>)
    ensures forall s :: s in UsableOf(sources) <==> s in sources && Usable(s)
  {
    if sources != [] {
      UsableAre(sources[1..]);
    }
  }

  lemma {:induction false} FirstJournalIs(sources: seq<Source>)
    ensures FirstJournal(sources).Some? <==> exists s :: s in sources && s.kind.Journal?
    ensures FirstJournal(sources).Some? ==>
      FirstJournal(sources).value in sources && FirstJournal(sources).value.kind.Journal?
  {
    if sources != [] {
      FirstJournalIs(sources[1..]);
    }
  }

  lemma {:induction false} NewestIs(sources: seq<Source>)
    requires sources != [] && Dated(sources)
    ensures forall s :: s in sources ==> s.updatedAt.value <= Newest(sources).updatedAt.value
  {
    if |sources| > 1 {
      NewestIs(sources[1..]);
    }
  }

  predicate NoNewer(a: Source, b: Source)
  {
    a.updatedAt.Some? && b.updatedAt.Some? && a.updatedAt.value <= b.updatedAt.value
  }

  /**
   * A copy is chosen exactly when some exact copy is valid; it is one of those; a valid journal goes before
   * everything else whatever its date; otherwise, if all dates can be read, nothing usable is newer.
   */
  lemma SafestIsSafest(sources: seq<Source>, pick: Pick)
    ensures Safest(sources, pick).Some? <==> exists s :: s in sources && Usable(s)
    ensures Safest(sources, pick).Some? ==>
      Safest(sources, pick).value in sources && Usable(Safest(sources, pick).value)
    ensures (exists s :: s in sources && Usable(s) && s.kind.Journal?) <==> Resume(sources, pick) == Some(Journal)
    ensures Safest(sources, pick).Some? && !Safest(sources, pick).value.kind.Journal? && Dated(UsableOf(sources)) ==>
      forall s :: s in sources && Usable(s) ==> NoNewer(s, Safest(sources, pick).value)
  {
    var usable := UsableOf(sources);
    UsableAre(sources);
    FirstJournalIs(usable);
    if usable != [] {
      assert usable[0] in usable;
      if Dated(usable) {
        NewestIs(usable);
      }
    }
  }

  // --- the merge ------------------------------------------------------------------------------------

  function ExtrasOf(extra: seq<Extra>, gameKey: Str): seq<Source>
  {
    if extra == [] then []
    else if extra[0].gameKey == gameKey then extra[0].sources
    else ExtrasOf(extra[1..], gameKey)
  }

  function RecordGame(r: Record, extra: seq<Extra>, pick: Pick): Game
  {
    var sources := [NO_JOURNAL, FromRecord(r)] + ExtrasOf(extra, r.gameKey);
    Game(OfRecord(r.id), Some(r), sources, if r.active then Resume(sources, pick) else None)
  }

  function OthersThanJournals(sources: seq<Source>): seq<Source>
  {
    if sources == [] then []
    else (if sources[0].kind.Journal? then [] else [sources[0]]) + OthersThanJournals(sources[1..])
  }

  function Attach(g: Game, e: JournalEntry, pick: Pick): Game
    requires g.record.Some?
  {
    var sources := [FromJournal(e)] + OthersThanJournals(g.sources);
    g.(sources := sources, resume := if g.record.value.active then Resume(sources, pick) else g.resume)
  }

  function JournalGame(e: JournalEntry, extra: seq<Extra>, pick: Pick): Game
  {
    var sources := [FromJournal(e)] + ExtrasOf(extra, e.gameKey);
    Game(OfJournal(e.gameKey), None, sources, Resume(sources, pick))
  }

  function SourceGame(x: Extra, pick: Pick): Game
  {
    Game(OfSource(x.gameKey), None, x.sources, Resume(x.sources, pick))
  }

  /** `Map.set`: in place when the key is there, at the end when it is not. */
  function Put(games: seq<Game>, g: Game): seq<Game>
  {
    if games == [] then [g]
    else if games[0].key == g.key then [g] + games[1..]
    else [games[0]] + Put(games[1..], g)
  }

  /** The last record with a game key, which is the one `recordGames` holds. */
  function Owner(records: seq<Record>, gameKey: Str): (o: Option<nat>)
    ensures o.Some? ==> o.value < |records| && records[o.value].gameKey == gameKey
    ensures o.None? ==> forall r :: r in records ==> r.gameKey != gameKey
  {
    if records == [] then None
    else if records[|records| - 1].gameKey == gameKey then Some(|records| - 1)
    else Owner(records[..|records| - 1], gameKey)
  }

  function AfterRecords(records: seq<Record>, extra: seq<Extra>, pick: Pick): (games: seq<Game>)
  {
    seq(|records|, i requires 0 <= i < |records| => RecordGame(records[i], extra, pick))
  }

  /** The record games stand first, in the order of the records, whatever the journals do. */
  ghost predicate RecordsFirst(records: seq<Record>, games: seq<Game>)
  {
    && |records| <= |games|
    && (forall i :: 0 <= i < |records| ==>
          games[i].key == OfRecord(records[i].id) && games[i].record == Some(records[i]))
    && (forall i :: |records| <= i < |games| ==> !games[i].key.OfRecord?)
  }

  lemma {:induction false} PutBehind(records: seq<Record>, games: seq<Game>, g: Game)
    requires RecordsFirst(records, games) && !g.key.OfRecord?
    ensures RecordsFirst(records, Put(games, g)) && Put(games, g)[..|records|] == games[..|records|]
    decreases |games|
  {
    if games != [] && games[0].key != g.key {
      if records != [] {
        PutBehind(records[1..], games[1..], g);
        assert games[..|records|] == [games[0]] + games[1..][..|records| - 1];
        var after := Put(games[1..], g);
        assert Put(games, g)[..|records|] == [games[0]] + after[..|records| - 1];
      } else {
        PutBehind([], games[1..], g);
      }
    }
  }

  function AfterJournals(
    journals: seq<JournalEntry>, records: seq<Record>, extra: seq<Extra>, pick: Pick
  ): (games: seq<Game>)
    ensures RecordsFirst(records, games)
    decreases |journals|
  {
    if journals == [] then AfterRecords(records, extra, pick)
    else
      var before := AfterJournals(journals[..|journals| - 1], records, extra, pick);
      var e := journals[|journals| - 1];
      match Owner(records, e.gameKey)
      case Some(i) => before[i := Attach(before[i], e, pick)]
      case None =>
        var g := JournalGame(e, extra, pick);
        PutBehind(records, before, g);
        Put(before, g)
  }

  function Keys(records: seq<Record>, journals: seq<JournalEntry>): set<Str>
  {
    (set r | r in records :: r.gameKey) + (set e | e in journals :: e.gameKey)
  }

  predicate Represented(journals: seq<JournalEntry>, records: seq<Record>, gameKey: Str)
  {
    gameKey in Keys(records, journals)
  }

  function AfterExtras(
    done: seq<Extra>, journals: seq<JournalEntry>, records: seq<Record>, extra: seq<Extra>, pick: Pick
  ): (games: seq<Game>)
    ensures RecordsFirst(records, games)
    decreases |done|
  {
    if done == [] then AfterJournals(journals, records, extra, pick)
    else
      var before := AfterExtras(done[..|done| - 1], journals, records, extra, pick);
      var x := done[|done| - 1];
      if Represented(journals, records, x.gameKey) || x.sources == [] then before
      else
        PutBehind(records, before, SourceGame(x, pick));
        Put(before, SourceGame(x, pick))
  }

  /** Every game made: first one for each record, whether or not the map still holds it. */
  function Made(journals: seq<JournalEntry>, records: seq<Record>, extra: seq<Extra>, pick: Pick): (made: seq<Game>)
    ensures RecordsFirst(records, made)
  {
    AfterExtras(extra, journals, records, extra, pick)
  }

  /** Positions of records. */
  predicate Positions(shown: seq<nat>, records: seq<Record>)
  {
    forall k :: 0 <= k < |shown| ==> shown[k] < |records|
  }

  /** `Map.set` under a record's id: a record takes the place of an earlier one with its id. */
  function PutIndex(records: seq<Record>, shown: seq<nat>, n: nat): (more: seq<nat>)
    requires n < |records| && Positions(shown, records)
    ensures Positions(more, records)
  {
    if shown == [] then [n]
    else if records[shown[0]].id == records[n].id then [n] + shown[1..]
    else [shown[0]] + PutIndex(records, shown[1..], n)
  }

  /** The records whose games the map holds, in its order. */
  function Shown(records: seq<Record>): (shown: seq<nat>)
    ensures Positions(shown, records)
  {
    if records == [] then [] else PutIndex(records, Shown(records[..|records| - 1]), |records| - 1)
  }

  /** What the map holds of the games made. */
  function Held(shown: seq<nat>, records: seq<Record>, made: seq<Game>): seq<Game>
    requires |records| <= |made| && Positions(shown, records)
  {
    seq(|shown|, k requires 0 <= k < |shown| => made[shown[k]]) + made[|records|..]
  }

  function Build(journals: seq<JournalEntry>, records: seq<Record>, extra: seq<Extra>, pick: Pick): seq<Game>
  {
    Held(Shown(records), records, Made(journals, records, extra, pick))
  }

  /** `recordGames` holds, for each game key, the last record with it. */
  ghost predicate Indexes(recordGames: map<Str, nat>, records: seq<Record>)
  {
    forall k :: (k in recordGames <==> Owner(records, k).Some?)
      && (k in recordGames ==> Owner(records, k) == Some(recordGames[k]))
  }

  lemma IndexOneMore(recordGames: map<Str, nat>, records: seq<Record>)
    requires records != [] && Indexes(recordGames, records[..|records| - 1])
    ensures Indexes(recordGames[records[|records| - 1].gameKey := |records| - 1], records)
  {
  }

  /** A record game that another one displaced from the map is still in `recordGames`, and journals still find it. */
  method BuildRecoveryGames(journals: seq<JournalEntry>, records: seq<Record>, extra: seq<Extra>, pick: Pick)
    returns (games: seq<Game>)
    ensures games == Build(journals, records, extra, pick)
  {
    var made, shown, recordGames := AddRecords(records, extra, pick);
    made := AddJournals(made, recordGames, journals, records, extra, pick);
    made := AddExtras(made, journals, records, extra, pick);
    games := Held(shown, records, made);
  }

  /** The first loop: a game for each record, filed under the record's id and under its game key. */
  method AddRecords(records: seq<Record>, extra: seq<Extra>, pick: Pick)
    returns (made: seq<Game>, shown: seq<nat>, recordGames: map<Str, nat>)
    ensures made == AfterRecords(records, extra, pick) && shown == Shown(records)
    ensures Indexes(recordGames, records)
  {
    made, shown, recordGames := [], [], map[];
    for i := 0 to |records|
      invariant made == AfterRecords(records[..i], extra, pick)
      invariant shown == Shown(records[..i])
      invariant Indexes(recordGames, records[..i])
    {
      assert records[..i + 1][..i] == records[..i];
      IndexOneMore(recordGames, records[..i + 1]);
      made := made + [RecordGame(records[i], extra, pick)];
      recordGames := recordGames[records[i].gameKey := i];
      shown := PutIndex(records[..i + 1], shown, i);
    }
    assert records[..|records|] == records;
  }

  /** The second loop: each journal goes to its record's game or makes one of its own. */
  method AddJournals(
    start: seq<Game>, recordGames: map<Str, nat>, journals: seq<JournalEntry>, records: seq<Record>, extra: seq<Extra>,
    pick: Pick
  ) returns (games: seq<Game>)
    requires start == AfterRecords(records, extra, pick)
    requires Indexes(recordGames, records)
    ensures games == AfterJournals(journals, records, extra, pick)
  {
    games := start;
    for i := 0 to |journals|
      invariant games == AfterJournals(journals[..i], records, extra, pick)
    {
      var e := journals[i];
      assert journals[..i + 1][..i] == journals[..i];
      if e.gameKey in recordGames {
        var at := recordGames[e.gameKey];
        games := games[at := Attach(games[at], e, pick)];
      } else {
        games := Put(games, JournalGame(e, extra, pick));
      }
    }
    assert journals[..|journals|] == journals;
  }

  /** The third loop: what neither a record nor a journal represents. */
  method AddExtras(
    start: seq<Game>, journals: seq<JournalEntry>, records: seq<Record>, extra: seq<Extra>, pick: Pick
  ) returns (games: seq<Game>)
    requires start == AfterJournals(journals, records, extra, pick)
    ensures games == Made(journals, records, extra, pick)
  {
    games := start;
    var represented := Keys(records, journals);
    for i := 0 to |extra|
      invariant games == AfterExtras(extra[..i], journals, records, extra, pick)
    {
      assert extra[..i + 1][..i] == extra[..i];
      if extra[i].gameKey !in represented && extra[i].sources != [] {
        games := Put(games, SourceGame(extra[i], pick));
      }
    }
    assert extra[..|extra|] == extra;
  }

  // --- nothing lost, nothing twice ------------------------------------------------------------------

  ghost predicate DistinctRecords(records: seq<Record>)
  {
    forall i, j :: 0 <= i < j < |records| ==> records[i].gameKey != records[j].gameKey
  }

  ghost predicate DistinctJournals(journals: seq<JournalEntry>)
  {
    forall i, j :: 0 <= i < j < |journals| ==> journals[i].gameKey != journals[j].gameKey
  }

  ghost predicate DistinctExtras(extra: seq<Extra>)
  {
    forall i, j :: 0 <= i < j < |extra| ==> extra[i].gameKey != extra[j].gameKey
  }

  /** The additional sources come in a map, and are checkpoints and external backups. */
  ghost predicate PlainExtras(extra: seq<Extra>)
  {
    && DistinctExtras(extra)
    && (forall i, s :: 0 <= i < |extra| && s in extra[i].sources ==> !s.kind.Journal?)
  }

  function JournalOf(journals: seq<JournalEntry>, gameKey: Str): Option<JournalEntry>
  {
    if journals == [] then None
    else if journals[|journals| - 1].gameKey == gameKey then Some(journals[|journals| - 1])
    else JournalOf(journals[..|journals| - 1], gameKey)
  }

  /** Everything there is of a record's game: its journal or that there is none, the record, the rest. */
  function CopiesOf(r: Record, journals: seq<JournalEntry>, extra: seq<Extra>): seq<Source>
  {
    var journal := JournalOf(journals, r.gameKey);
    [if journal.Some? then FromJournal(journal.value) else NO_JOURNAL, FromRecord(r)] + ExtrasOf(extra, r.gameKey)
  }

  function FullRecordGame(r: Record, journals: seq<JournalEntry>, extra: seq<Extra>, pick: Pick): Game
  {
    var sources := CopiesOf(r, journals, extra);
    Game(OfRecord(r.id), Some(r), sources, if r.active then Resume(sources, pick) else None)
  }

  function FullRecordGames(records: seq<Record>, journals: seq<JournalEntry>, extra: seq<Extra>, pick: Pick): seq<Game>
  {
    seq(|records|, i requires 0 <= i < |records| => FullRecordGame(records[i], journals, extra, pick))
  }

  predicate HasRecord(records: seq<Record>, gameKey: Str) { Owner(records, gameKey).Some? }

  function JournalGames(journals: seq<JournalEntry>, records: seq<Record>, extra: seq<Extra>, pick: Pick): seq<Game>
  {
    if journals == [] then []
    else
      var n := |journals| - 1;
      JournalGames(journals[..n], records, extra, pick)
      + if HasRecord(records, journals[n].gameKey) then [] else [JournalGame(journals[n], extra, pick)]
  }

  function SourceGames(done: seq<Extra>, journals: seq<JournalEntry>, records: seq<Record>, pick: Pick): seq<Game>
  {
    if done == [] then []
    else
      var n := |done| - 1;
      SourceGames(done[..n], journals, records, pick)
      + if Represented(journals, records, done[n].gameKey) || done[n].sources == [] then []
        else [SourceGame(done[n], pick)]
  }

  lemma {:induction false} PutAtEnd(games: seq<Game>, g: Game)
    requires forall i :: 0 <= i < |games| ==> games[i].key != g.key
    ensures Put(games, g) == games + [g]
    decreases |games|
  {
    if games != [] {
      PutAtEnd(games[1..], g);
    }
  }

  lemma {:induction false} JournalGameKeys(
    journals: seq<JournalEntry>, records: seq<Record>, extra: seq<Extra>, pick: Pick
  )
    ensures
      var games := JournalGames(journals, records, extra, pick);
      forall g :: g in games ==> g.key.OfJournal? && exists e :: e in journals && e.gameKey == g.key.gameKey
    decreases |journals|
  {
    if journals != [] {
      JournalGameKeys(journals[..|journals| - 1], records, extra, pick);
    }
  }

  lemma {:induction false} SourceGameKeys(
    done: seq<Extra>, journals: seq<JournalEntry>, records: seq<Record>, pick: Pick
  )
    ensures
      var games := SourceGames(done, journals, records, pick);
      forall g :: g in games ==> g.key.OfSource? && exists x :: x in done && x.gameKey == g.key.gameKey
    decreases |done|
  {
    if done != [] {
      SourceGameKeys(done[..|done| - 1], journals, records, pick);
    }
  }

  lemma {:induction false} NoJournals(sources: seq<Source>)
    requires forall s :: s in sources ==> !s.kind.Journal?
    ensures OthersThanJournals(sources) == sources
  {
    if sources != [] {
      NoJournals(sources[1..]);
    }
  }

  lemma {:induction false} ExtrasArePlain(extra: seq<Extra>, gameKey: Str)
    requires PlainExtras(extra)
    ensures forall s :: s in ExtrasOf(extra, gameKey) ==> !s.kind.Journal?
  {
    if extra != [] && extra[0].gameKey != gameKey {
      ExtrasArePlain(extra[1..], gameKey);
    }
  }

  lemma CopiesWithoutJournal(r: Record, before: seq<JournalEntry>, extra: seq<Extra>)
    requires PlainExtras(extra) && JournalOf(before, r.gameKey).None?
    ensures OthersThanJournals(CopiesOf(r, before, extra)) == [FromRecord(r)] + ExtrasOf(extra, r.gameKey)
  {
    var extras := ExtrasOf(extra, r.gameKey);
    ExtrasArePlain(extra, r.gameKey);
    NoJournals([FromRecord(r)] + extras);
    assert CopiesOf(r, before, extra)[1..] == [FromRecord(r)] + extras;
  }

  /** A journal takes the place of the missing one. */
  lemma AttachCompletes(r: Record, e: JournalEntry, before: seq<JournalEntry>, extra: seq<Extra>, pick: Pick)
    requires PlainExtras(extra) && e.gameKey == r.gameKey && JournalOf(before, r.gameKey).None?
    ensures Attach(FullRecordGame(r, before, extra, pick), e, pick) == FullRecordGame(r, before + [e], extra, pick)
  {
    CopiesWithoutJournal(r, before, extra);
    assert JournalOf(before + [e], r.gameKey) == Some(e);
    assert CopiesOf(r, before + [e], extra) == [FromJournal(e)] + ([FromRecord(r)] + ExtrasOf(extra, r.gameKey));
  }

  lemma {:induction false} NoJournalOf(journals: seq<JournalEntry>, gameKey: Str)
    ensures JournalOf(journals, gameKey).None? <==> forall e :: e in journals ==> e.gameKey != gameKey
    ensures JournalOf(journals, gameKey).Some? ==>
      JournalOf(journals, gameKey).value in journals && JournalOf(journals, gameKey).value.gameKey == gameKey
    decreases |journals|
  {
    if journals != [] {
      NoJournalOf(journals[..|journals| - 1], gameKey);
    }
  }

  lemma OtherRecordsUnchanged(r: Record, before: seq<JournalEntry>, e: JournalEntry, extra: seq<Extra>, pick: Pick)
    requires r.gameKey != e.gameKey
    ensures FullRecordGame(r, before + [e], extra, pick) == FullRecordGame(r, before, extra, pick)
  {
    assert (before + [e])[..|before|] == before;
  }

  lemma JournalStep(
    before: seq<JournalEntry>, e: JournalEntry, records: seq<Record>, extra: seq<Extra>, pick: Pick, i: nat
  )
    requires DistinctRecords(records) && PlainExtras(extra) && Owner(records, e.gameKey) == Some(i)
    requires JournalOf(before, e.gameKey).None?
    ensures
      var games := FullRecordGames(records, before, extra, pick);
      games[i := Attach(games[i], e, pick)] == FullRecordGames(records, before + [e], extra, pick)
  {
    AttachCompletes(records[i], e, before, extra, pick);
    var games := FullRecordGames(records, before, extra, pick);
    forall j | 0 <= j < |records| && j != i
      ensures games[j] == FullRecordGames(records, before + [e], extra, pick)[j]
    {
      OtherRecordsUnchanged(records[j], before, e, extra, pick);
    }
  }

  lemma NoRecordStep(before: seq<JournalEntry>, e: JournalEntry, records: seq<Record>, extra: seq<Extra>, pick: Pick)
    requires Owner(records, e.gameKey).None?
    ensures FullRecordGames(records, before, extra, pick) == FullRecordGames(records, before + [e], extra, pick)
  {
    forall j | 0 <= j < |records|
      ensures FullRecordGame(records[j], before, extra, pick) == FullRecordGame(records[j], before + [e], extra, pick)
    {
      OtherRecordsUnchanged(records[j], before, e, extra, pick);
    }
  }

  lemma PutBehindRecords(front: seq<Game>, back: seq<Game>, g: Game)
    requires forall x :: x in front + back ==> x.key != g.key
    ensures Put(front + back, g) == front + (back + [g])
  {
    forall i | 0 <= i < |front + back| ensures (front + back)[i].key != g.key {
      assert (front + back)[i] in front + back;
    }
    PutAtEnd(front + back, g);
  }

  lemma RecordGameKeys(journals: seq<JournalEntry>, records: seq<Record>, extra: seq<Extra>, pick: Pick)
    ensures forall g :: g in FullRecordGames(records, journals, extra, pick) ==> g.key.OfRecord?
  {
  }

  lemma UnownedStep(before: seq<JournalEntry>, e: JournalEntry, records: seq<Record>, extra: seq<Extra>, pick: Pick)
    requires Owner(records, e.gameKey).None? && forall x :: x in before ==> x.gameKey != e.gameKey
    ensures
      Put(FullRecordGames(records, before, extra, pick) + JournalGames(before, records, extra, pick),
          JournalGame(e, extra, pick))
      == FullRecordGames(records, before + [e], extra, pick) + JournalGames(before + [e], records, extra, pick)
  {
    NoRecordStep(before, e, records, extra, pick);
    RecordGameKeys(before, records, extra, pick);
    JournalGameKeys(before, records, extra, pick);
    PutBehindRecords(
      FullRecordGames(records, before, extra, pick), JournalGames(before, records, extra, pick),
      JournalGame(e, extra, pick));
    assert (before + [e])[..|before|] == before;
  }

  lemma OwnedMakesNone(before: seq<JournalEntry>, e: JournalEntry, records: seq<Record>, extra: seq<Extra>, pick: Pick)
    requires HasRecord(records, e.gameKey)
    ensures JournalGames(before + [e], records, extra, pick) == JournalGames(before, records, extra, pick)
  {
    assert (before + [e])[..|before|] == before;
  }

  lemma UpdateInFront(front: seq<Game>, back: seq<Game>, i: nat, g: Game)
    requires i < |front|
    ensures (front + back)[i := g] == front[i := g] + back && (front + back)[i] == front[i]
  {
  }

  lemma OwnedStep(
    before: seq<JournalEntry>, e: JournalEntry, records: seq<Record>, extra: seq<Extra>, pick: Pick, i: nat
  )
    requires DistinctRecords(records) && PlainExtras(extra) && Owner(records, e.gameKey) == Some(i)
    requires JournalOf(before, e.gameKey).None?
    ensures
      var games := FullRecordGames(records, before, extra, pick) + JournalGames(before, records, extra, pick);
      games[i := Attach(games[i], e, pick)]
      == FullRecordGames(records, before + [e], extra, pick) + JournalGames(before + [e], records, extra, pick)
  {
    var front, back := FullRecordGames(records, before, extra, pick), JournalGames(before, records, extra, pick);
    UpdateInFront(front, back, i, Attach(front[i], e, pick));
    JournalStep(before, e, records, extra, pick, i);
    OwnedMakesNone(before, e, records, extra, pick);
  }

  lemma {:induction false} JournalsGiveGames(
    journals: seq<JournalEntry>, records: seq<Record>, extra: seq<Extra>, pick: Pick
  )
    requires DistinctRecords(records) && DistinctJournals(journals) && PlainExtras(extra)
    ensures AfterJournals(journals, records, extra, pick)
      == FullRecordGames(records, journals, extra, pick) + JournalGames(journals, records, extra, pick)
    decreases |journals|
  {
    if journals == [] {
      assert FullRecordGames(records, [], extra, pick) == AfterRecords(records, extra, pick);
    } else {
      var n := |journals| - 1;
      var before, e := journals[..n], journals[n];
      JournalsGiveGames(before, records, extra, pick);
      NoJournalOf(before, e.gameKey);
      assert journals == before + [e];
      match Owner(records, e.gameKey) {
        case Some(i) => OwnedStep(before, e, records, extra, pick, i);
        case None => UnownedStep(before, e, records, extra, pick);
      }
    }
  }

  lemma LastKeyIsNew(done: seq<Extra>)
    requires done != [] && DistinctExtras(done)
    ensures DistinctExtras(done[..|done| - 1])
    ensures forall x :: x in done[..|done| - 1] ==> x.gameKey != done[|done| - 1].gameKey
    ensures done == done[..|done| - 1] + [done[|done| - 1]]
  {
  }

  lemma PutSource(
    front: seq<Game>, done: seq<Extra>, x: Extra, journals: seq<JournalEntry>, records: seq<Record>, pick: Pick
  )
    requires (forall g :: g in front ==> !g.key.OfSource?) && forall y :: y in done ==> y.gameKey != x.gameKey
    ensures
      var back := SourceGames(done, journals, records, pick);
      Put(front + back, SourceGame(x, pick)) == front + (back + [SourceGame(x, pick)])
  {
    SourceGameKeys(done, journals, records, pick);
    PutBehindRecords(front, SourceGames(done, journals, records, pick), SourceGame(x, pick));
  }

  lemma {:induction false} ExtrasGiveGames(
    done: seq<Extra>, journals: seq<JournalEntry>, records: seq<Record>, extra: seq<Extra>, pick: Pick
  )
    requires DistinctExtras(done)
    requires forall g :: g in AfterJournals(journals, records, extra, pick) ==> !g.key.OfSource?
    ensures AfterExtras(done, journals, records, extra, pick)
      == AfterJournals(journals, records, extra, pick) + SourceGames(done, journals, records, pick)
    decreases |done|
  {
    if done != [] {
      var n := |done| - 1;
      LastKeyIsNew(done);
      ExtrasGiveGames(done[..n], journals, records, extra, pick);
      PutSource(AfterJournals(journals, records, extra, pick), done[..n], done[n], journals, records, pick);
    }
  }

  /** Given distinct game keys, every game is made with everything there is of it. */
  lemma MadeInFull(journals: seq<JournalEntry>, records: seq<Record>, extra: seq<Extra>, pick: Pick)
    requires DistinctRecords(records) && DistinctJournals(journals) && PlainExtras(extra)
    ensures Made(journals, records, extra, pick)
      == FullRecordGames(records, journals, extra, pick) + JournalGames(journals, records, extra, pick)
         + SourceGames(extra, journals, records, pick)
  {
    JournalsGiveGames(journals, records, extra, pick);
    RecordGameKeys(journals, records, extra, pick);
    JournalGameKeys(journals, records, extra, pick);
    ExtrasGiveGames(extra, journals, records, extra, pick);
  }

  // --- which records the map holds ------------------------------------------------------------------

  /** No later record has this one's id. */
  ghost predicate LastWithId(records: seq<Record>, i: nat)
  {
    i < |records| && forall m :: i < m < |records| ==> records[m].id != records[i].id
  }

  ghost predicate DistinctIds(records: seq<Record>)
  {
    forall i, j :: 0 <= i < j < |records| ==> records[i].id != records[j].id
  }

  /** The positions are of records with different ids. */
  ghost predicate IdsDiffer(records: seq<Record>, shown: seq<nat>)
  {
    forall a, b :: 0 <= a < b < |shown| ==> HasOtherId(records, shown[a], shown[b])
  }

  predicate HasOtherId(records: seq<Record>, i: nat, j: nat)
  {
    i < |records| && j < |records| && records[i].id != records[j].id
  }

  lemma {:induction false} PutIndexIs(records: seq<Record>, shown: seq<nat>, n: nat)
    requires n < |records| && Positions(shown, records) && IdsDiffer(records, shown)
    ensures forall i :: i in PutIndex(records, shown, n) <==> i == n || (i in shown && HasOtherId(records, i, n))
    ensures IdsDiffer(records, PutIndex(records, shown, n))
    decreases |shown|
  {
    if shown != [] {
      var rest := shown[1..];
      assert shown == [shown[0]] + rest;
      assert forall i :: i in rest ==> HasOtherId(records, shown[0], i);
      if records[shown[0]].id == records[n].id {
        DiffersAhead(records, n, rest);
      } else {
        PutIndexIs(records, rest, n);
        DiffersAhead(records, shown[0], PutIndex(records, rest, n));
      }
    }
  }

  lemma DiffersAhead(records: seq<Record>, first: nat, rest: seq<nat>)
    requires first < |records| && (forall i :: i in rest ==> HasOtherId(records, first, i)) && IdsDiffer(records, rest)
    ensures IdsDiffer(records, [first] + rest)
  {
    var all := [first] + rest;
    forall a, b | 0 <= a < b < |all| ensures HasOtherId(records, all[a], all[b]) {
      assert all[b] == rest[b - 1];
      assert a > 0 ==> all[a] == rest[a - 1];
    }
  }

  lemma LastWithIdStep(records: seq<Record>, i: nat)
    requires records != []
    ensures
      var n := |records| - 1;
      LastWithId(records, i) <==> i == n || (LastWithId(records[..n], i) && HasOtherId(records, i, n))
  {
  }

  lemma IdsDifferLater(records: seq<Record>, n: nat, shown: seq<nat>)
    requires n <= |records| && IdsDiffer(records[..n], shown)
    ensures IdsDiffer(records, shown)
  {
    forall a, b | 0 <= a < b < |shown| ensures HasOtherId(records, shown[a], shown[b]) {
      assert HasOtherId(records[..n], shown[a], shown[b]);
    }
  }

  /** The map holds exactly the records no later one shares its id with, each id once. */
  lemma {:induction false} ShownIs(records: seq<Record>)
    ensures forall i: nat :: i in Shown(records) <==> LastWithId(records, i)
    ensures IdsDiffer(records, Shown(records))
    decreases |records|
  {
    if records != [] {
      var n := |records| - 1;
      ShownIs(records[..n]);
      IdsDifferLater(records, n, Shown(records[..n]));
      PutIndexIs(records, Shown(records[..n]), n);
      forall i: nat ensures i in Shown(records) <==> LastWithId(records, i) {
        LastWithIdStep(records, i);
      }
    }
  }

  lemma {:induction false} PutIndexAtEnd(records: seq<Record>, shown: seq<nat>, n: nat)
    requires n < |records| && Positions(shown, records) && forall i :: i in shown ==> HasOtherId(records, i, n)
    ensures PutIndex(records, shown, n) == shown + [n]
    decreases |shown|
  {
    if shown != [] {
      assert shown[0] in shown;
      PutIndexAtEnd(records, shown[1..], n);
      assert shown == [shown[0]] + shown[1..];
    }
  }

  /** With distinct ids it holds all of them, in their order. */
  lemma {:induction false} DistinctIdsAreShown(records: seq<Record>)
    requires DistinctIds(records)
    ensures Shown(records) == seq(|records|, i requires 0 <= i < |records| => i)
    decreases |records|
  {
    if records != [] {
      var n := |records| - 1;
      DistinctIdsAreShown(records[..n]);
      PutIndexAtEnd(records, Shown(records[..n]), n);
    }
  }

  function HeldRecordGames(records: seq<Record>, journals: seq<JournalEntry>, extra: seq<Extra>, pick: Pick): seq<Game>
  {
    Held(Shown(records), records, FullRecordGames(records, journals, extra, pick))
  }

  lemma HeldInFront(shown: seq<nat>, records: seq<Record>, front: seq<Game>, a: seq<Game>, b: seq<Game>)
    requires |front| == |records| && Positions(shown, records)
    ensures Held(shown, records, front + a + b) == Held(shown, records, front) + a + b
  {
    assert (front + a + b)[|records|..] == a + b && front[|records|..] == [];
  }

  /**
   * Given distinct game keys, the merge is: each record the map holds with everything there is of its game, in
   * order; then each journal without a record; then each additional source without either.
   */
  lemma MergeIsComplete(journals: seq<JournalEntry>, records: seq<Record>, extra: seq<Extra>, pick: Pick)
    requires DistinctRecords(records) && DistinctJournals(journals) && PlainExtras(extra)
    ensures Build(journals, records, extra, pick)
      == HeldRecordGames(records, journals, extra, pick) + JournalGames(journals, records, extra, pick)
         + SourceGames(extra, journals, records, pick)
    ensures DistinctIds(records) ==>
      HeldRecordGames(records, journals, extra, pick) == FullRecordGames(records, journals, extra, pick)
  {
    MadeInFull(journals, records, extra, pick);
    HeldInFront(Shown(records), records, FullRecordGames(records, journals, extra, pick),
                JournalGames(journals, records, extra, pick), SourceGames(extra, journals, records, pick));
    if DistinctIds(records) {
      AllHeld(records, FullRecordGames(records, journals, extra, pick));
    }
  }

  lemma AllHeld(records: seq<Record>, games: seq<Game>)
    requires DistinctIds(records) && |games| == |records|
    ensures Held(Shown(records), records, games) == games
  {
    DistinctIdsAreShown(records);
  }

  /** Which game an entry is about. */
  function KeyOf(g: Game): Str
  {
    match g.key
    case OfRecord(_) => if g.record.Some? then g.record.value.gameKey else []
    case OfJournal(gameKey) => gameKey
    case OfSource(gameKey) => gameKey
  }

  /** Everything there is of one game, whatever it is. */
  function Everything(gameKey: Str, journals: seq<JournalEntry>, records: seq<Record>, extra: seq<Extra>): seq<Source>
  {
    var journal, owner := JournalOf(journals, gameKey), Owner(records, gameKey);
    (if owner.Some? then
       [if journal.Some? then FromJournal(journal.value) else NO_JOURNAL, FromRecord(records[owner.value])]
     else if journal.Some? then [FromJournal(journal.value)]
     else [])
    + ExtrasOf(extra, gameKey)
  }

  ghost predicate OnePerKey(games: seq<Game>)
  {
    forall i, j :: 0 <= i < j < |games| ==> KeyOf(games[i]) != KeyOf(games[j])
  }

  /** Every entry has all there is of its game. */
  ghost predicate AllComplete(games: seq<Game>, journals: seq<JournalEntry>, records: seq<Record>, extra: seq<Extra>)
  {
    forall g :: g in games ==> g.sources == Everything(KeyOf(g), journals, records, extra)
  }

  lemma {:induction false} OwnerIsTheRecord(records: seq<Record>, i: nat)
    requires DistinctRecords(records) && i < |records|
    ensures Owner(records, records[i].gameKey) == Some(i)
  {
    assert records[i] in records;
  }

  function KeysOf(games: seq<Game>): set<Str> { set g | g in games :: KeyOf(g) }

  lemma KeysJoin(a: seq<Game>, b: seq<Game>)
    ensures KeysOf(a + b) == KeysOf(a) + KeysOf(b)
    ensures OnePerKey(a) && OnePerKey(b) && KeysOf(a) !! KeysOf(b) ==> OnePerKey(a + b)
  {
    assert forall g :: g in a + b <==> g in a || g in b;
    forall i, j | 0 <= i < j < |a + b| && OnePerKey(a) && OnePerKey(b) && KeysOf(a) !! KeysOf(b)
      ensures KeyOf((a + b)[i]) != KeyOf((a + b)[j])
    {
      if i < |a| <= j {
        assert a[i] in a && b[j - |a|] in b;
        assert KeyOf(a[i]) in KeysOf(a) && KeyOf(b[j - |a|]) in KeysOf(b);
      }
    }
  }

  lemma KeysOfOne(g: Game)
    ensures KeysOf([g]) == {KeyOf(g)} && KeysOf([]) == {}
  {
    assert g in [g];
  }

  /** One more entry with a key of its own. */
  lemma KeysGrow(before: seq<Game>, g: Game, keys: set<Str>)
    requires OnePerKey(before) && KeysOf(before) == keys && KeyOf(g) !in keys
    ensures OnePerKey(before + [g]) && KeysOf(before + [g]) == keys + {KeyOf(g)}
    ensures before + [] == before
  {
    KeysJoin(before, [g]);
    KeysOfOne(g);
  }

  function RecordKeys(records: seq<Record>): set<Str> { set r | r in records :: r.gameKey }

  /** The games of records that a later record with the same id displaced. */
  ghost function HiddenKeys(records: seq<Record>): set<Str>
  {
    set i: nat | i < |records| && !LastWithId(records, i) :: records[i].gameKey
  }

  lemma RecordPart(journals: seq<JournalEntry>, records: seq<Record>, extra: seq<Extra>, pick: Pick)
    requires DistinctRecords(records)
    ensures
      var games := HeldRecordGames(records, journals, extra, pick);
      && OnePerKey(games) && AllComplete(games, journals, records, extra)
      && KeysOf(games) == RecordKeys(records) - HiddenKeys(records)
  {
    var games, shown := HeldRecordGames(records, journals, extra, pick), Shown(records);
    ShownIs(records);
    forall k | 0 <= k < |games|
      ensures games[k].sources == Everything(KeyOf(games[k]), journals, records, extra)
      ensures shown[k] in shown && KeyOf(games[k]) == records[shown[k]].gameKey
    {
      assert games[k] == FullRecordGame(records[shown[k]], journals, extra, pick);
      assert shown[k] in shown;
      OwnerIsTheRecord(records, shown[k]);
    }
    HeldKeysDiffer(records, games);
    HeldKeys(records, games);
  }

  lemma HeldKeysDiffer(records: seq<Record>, games: seq<Game>)
    requires DistinctRecords(records) && |games| == |Shown(records)|
    requires forall k :: 0 <= k < |games| ==>
      Shown(records)[k] in Shown(records) && KeyOf(games[k]) == records[Shown(records)[k]].gameKey
    ensures OnePerKey(games)
  {
    ShownIs(records);
    forall a, b | 0 <= a < b < |games| ensures KeyOf(games[a]) != KeyOf(games[b]) {
      assert HasOtherId(records, Shown(records)[a], Shown(records)[b]);
    }
  }

  lemma HeldKeys(records: seq<Record>, games: seq<Game>)
    requires DistinctRecords(records) && |games| == |Shown(records)|
    requires forall k :: 0 <= k < |games| ==>
      Shown(records)[k] in Shown(records) && KeyOf(games[k]) == records[Shown(records)[k]].gameKey
    ensures KeysOf(games) == RecordKeys(records) - HiddenKeys(records)
  {
    ShownIs(records);
    forall g | g in games ensures KeyOf(g) in RecordKeys(records) - HiddenKeys(records) {
      var k :| 0 <= k < |games| && games[k] == g;
      LastIsNotHidden(records, Shown(records)[k]);
    }
    forall key | key in RecordKeys(records) - HiddenKeys(records) ensures key in KeysOf(games) {
      var i := NotHiddenIsLast(records, key);
      var k :| 0 <= k < |Shown(records)| && Shown(records)[k] == i;
      assert games[k] in games;
    }
  }

  lemma LastIsNotHidden(records: seq<Record>, i: nat)
    requires DistinctRecords(records) && LastWithId(records, i)
    ensures records[i].gameKey in RecordKeys(records) - HiddenKeys(records)
  {
    assert records[i] in records;
  }

  lemma NotHiddenIsLast(records: seq<Record>, key: Str) returns (i: nat)
    requires key in RecordKeys(records) - HiddenKeys(records)
    ensures LastWithId(records, i) && records[i].gameKey == key
  {
    i :| i < |records| && records[i].gameKey == key;
  }

  lemma OwnerMeansKey(records: seq<Record>, k: Str)
    ensures HasRecord(records, k) <==> k in RecordKeys(records)
  {
    if HasRecord(records, k) {
      assert records[Owner(records, k).value] in records;
    }
  }

  function LoneJournals(done: seq<JournalEntry>, records: seq<Record>): set<Str>
  {
    set e | e in done && !HasRecord(records, e.gameKey) :: e.gameKey
  }

  lemma OneMoreLoneJournal(done: seq<JournalEntry>, e: JournalEntry, records: seq<Record>)
    ensures LoneJournals(done + [e], records)
      == LoneJournals(done, records) + if HasRecord(records, e.gameKey) then {} else {e.gameKey}
  {
    assert forall x :: x in done + [e] <==> x in done || x == e;
  }

  lemma LoneJournalIsNew(done: seq<JournalEntry>, records: seq<Record>)
    requires done != [] && DistinctJournals(done)
    ensures done[|done| - 1].gameKey !in LoneJournals(done[..|done| - 1], records)
  {
  }

  lemma {:induction false} JournalKeys(done: seq<JournalEntry>, records: seq<Record>, extra: seq<Extra>, pick: Pick)
    requires DistinctJournals(done)
    ensures
      var games := JournalGames(done, records, extra, pick);
      KeysOf(games) == LoneJournals(done, records) && OnePerKey(games)
    decreases |done|
  {
    if done != [] {
      var n := |done| - 1;
      var before, e := JournalGames(done[..n], records, extra, pick), done[n];
      JournalKeys(done[..n], records, extra, pick);
      assert done == done[..n] + [e];
      OneMoreLoneJournal(done[..n], e, records);
      LoneJournalIsNew(done, records);
      KeysGrow(before, JournalGame(e, extra, pick), LoneJournals(done[..n], records));
    }
  }

  lemma {:induction false} JournalOfDistinct(journals: seq<JournalEntry>, i: nat)
    requires DistinctJournals(journals) && i < |journals|
    ensures JournalOf(journals, journals[i].gameKey) == Some(journals[i])
    decreases |journals|
  {
    if i < |journals| - 1 {
      JournalOfDistinct(journals[..|journals| - 1], i);
    }
  }

  lemma {:induction false} JournalsComplete(
    done: seq<JournalEntry>, journals: seq<JournalEntry>, records: seq<Record>, extra: seq<Extra>, pick: Pick
  )
    requires DistinctJournals(journals) && done <= journals
    ensures AllComplete(JournalGames(done, records, extra, pick), journals, records, extra)
    decreases |done|
  {
    if done != [] {
      var n := |done| - 1;
      JournalsComplete(done[..n], journals, records, extra, pick);
      JournalOfDistinct(journals, n);
      assert done[n] == journals[n];
    }
  }

  lemma {:induction false} ExtrasOfDistinct(extra: seq<Extra>, i: nat)
    requires i < |extra| && DistinctExtras(extra)
    ensures ExtrasOf(extra, extra[i].gameKey) == extra[i].sources
  {
    if i > 0 {
      ExtrasOfDistinct(extra[1..], i - 1);
    }
  }

  function LoneSources(done: seq<Extra>, journals: seq<JournalEntry>, records: seq<Record>): set<Str>
  {
    set x | x in done && x.sources != [] && !Represented(journals, records, x.gameKey) :: x.gameKey
  }

  lemma OneMoreLoneSource(done: seq<Extra>, x: Extra, journals: seq<JournalEntry>, records: seq<Record>)
    ensures LoneSources(done + [x], journals, records)
      == LoneSources(done, journals, records)
         + if Represented(journals, records, x.gameKey) || x.sources == [] then {} else {x.gameKey}
  {
    assert forall y :: y in done + [x] <==> y in done || y == x;
  }

  lemma NoSources(journals: seq<JournalEntry>, records: seq<Record>, pick: Pick)
    ensures KeysOf(SourceGames([], journals, records, pick)) == LoneSources([], journals, records) == {}
    ensures OnePerKey(SourceGames([], journals, records, pick))
  {
  }

  lemma OneMoreSource(
    done: seq<Extra>, x: Extra, journals: seq<JournalEntry>, records: seq<Record>, pick: Pick, keys: set<Str>
  )
    requires keys == LoneSources(done, journals, records) && forall y :: y in done ==> y.gameKey != x.gameKey
    requires KeysOf(SourceGames(done, journals, records, pick)) == keys
    requires OnePerKey(SourceGames(done, journals, records, pick))
    ensures KeysOf(SourceGames(done + [x], journals, records, pick)) == LoneSources(done + [x], journals, records)
    ensures OnePerKey(SourceGames(done + [x], journals, records, pick))
  {
    assert (done + [x])[..|done|] == done;
    OneMoreLoneSource(done, x, journals, records);
    KeysGrow(SourceGames(done, journals, records, pick), SourceGame(x, pick), keys);
  }

  lemma {:induction false} SourceKeys(done: seq<Extra>, journals: seq<JournalEntry>, records: seq<Record>, pick: Pick)
    requires DistinctExtras(done)
    ensures
      var games := SourceGames(done, journals, records, pick);
      KeysOf(games) == LoneSources(done, journals, records) && OnePerKey(games)
    decreases |done|
  {
    if done != [] {
      var n := |done| - 1;
      LastKeyIsNew(done);
      SourceKeys(done[..n], journals, records, pick);
      OneMoreSource(done[..n], done[n], journals, records, pick, LoneSources(done[..n], journals, records));
    } else {
      NoSources(journals, records, pick);
    }
  }

  lemma {:induction false} SourcesComplete(
    done: seq<Extra>, journals: seq<JournalEntry>, records: seq<Record>, extra: seq<Extra>, pick: Pick
  )
    requires PlainExtras(extra) && done <= extra
    ensures AllComplete(SourceGames(done, journals, records, pick), journals, records, extra)
    decreases |done|
  {
    if done != [] {
      var n := |done| - 1;
      SourcesComplete(done[..n], journals, records, extra, pick);
      ExtrasOfDistinct(extra, n);
      NoJournalOf(journals, done[n].gameKey);
      OwnerMeansKey(records, done[n].gameKey);
      assert done[n] == extra[n];
    }
  }

  /** The games that left anything at all. */
  function AllKeys(journals: seq<JournalEntry>, records: seq<Record>, extra: seq<Extra>): set<Str>
  {
    Keys(records, journals) + set x | x in extra && x.sources != [] :: x.gameKey
  }

  lemma KeysAddUp(journals: seq<JournalEntry>, records: seq<Record>, extra: seq<Extra>)
    ensures RecordKeys(records) + LoneJournals(journals, records) == Keys(records, journals)
    ensures RecordKeys(records) !! LoneJournals(journals, records)
    ensures Keys(records, journals) + LoneSources(extra, journals, records) == AllKeys(journals, records, extra)
    ensures Keys(records, journals) !! LoneSources(extra, journals, records)
  {
    forall k ensures HasRecord(records, k) <==> k in RecordKeys(records) {
      OwnerMeansKey(records, k);
    }
  }

  lemma HiddenExactlyWhen(records: seq<Record>)
    ensures HiddenKeys(records) <= RecordKeys(records)
    ensures HiddenKeys(records) == {} <==> DistinctIds(records)
  {
    forall key | key in HiddenKeys(records) ensures key in RecordKeys(records) {
      var i: nat :| i < |records| && !LastWithId(records, i) && records[i].gameKey == key;
      assert records[i] in records;
    }
    if i, j :| 0 <= i < j < |records| && records[i].id == records[j].id {
      assert !LastWithId(records, i);
      assert records[i].gameKey in HiddenKeys(records);
    }
  }

  /**
   * Exactly one entry for each game that left a record, a journal or another copy, those apart whose record a
   * later one with the same id displaced; so none is missing exactly when the ids are distinct. Every entry has
   * everything there is of its game, each copy once.
   */
  lemma OneGamePerKey(journals: seq<JournalEntry>, records: seq<Record>, extra: seq<Extra>, pick: Pick)
    requires DistinctRecords(records) && DistinctJournals(journals) && PlainExtras(extra)
    ensures
      var games := Build(journals, records, extra, pick);
      && OnePerKey(games) && AllComplete(games, journals, records, extra)
      && KeysOf(games) == AllKeys(journals, records, extra) - HiddenKeys(records)
      && (KeysOf(games) == AllKeys(journals, records, extra) <==> DistinctIds(records))
  {
    MergeIsComplete(journals, records, extra, pick);
    HiddenExactlyWhen(records);
    var a, b := HeldRecordGames(records, journals, extra, pick), JournalGames(journals, records, extra, pick);
    var c := SourceGames(extra, journals, records, pick);
    RecordPart(journals, records, extra, pick);
    JournalKeys(journals, records, extra, pick);
    JournalsComplete(journals, journals, records, extra, pick);
    SourceKeys(extra, journals, records, pick);
    SourcesComplete(extra, journals, records, extra, pick);
    KeysAddUp(journals, records, extra);
    KeysJoin(a, b);
    KeysJoin(a + b, c);
    CompleteJoins(a, b, journals, records, extra);
    CompleteJoins(a + b, c, journals, records, extra);
  }

  lemma CompleteJoins(a: seq<Game>, b: seq<Game>, journals: seq<JournalEntry>, records: seq<Record>, extra: seq<Extra>)
    requires AllComplete(a, journals, records, extra) && AllComplete(b, journals, records, extra)
    ensures AllComplete(a + b, journals, records, extra)
  {
  }

  /** A copy to resume from that no usable copy is newer than. */
  ghost predicate ResumesNewest(g: Game)
  {
    exists best :: best in g.sources && Usable(best) && Some(best.kind) == g.resume
      && forall s :: s in g.sources && Usable(s) ==> NoNewer(s, best)
  }

  /**
   * Every active game the map holds (`ShownIs`) can be resumed: from its journal exactly when that is valid, and
   * otherwise, when all usable dates can be read, from a copy that no usable copy is newer than.
   */
  lemma ActiveGamesResume(journals: seq<JournalEntry>, records: seq<Record>, extra: seq<Extra>, pick: Pick, k: nat)
    requires DistinctRecords(records) && DistinctJournals(journals) && PlainExtras(extra)
    requires k < |Shown(records)| && records[Shown(records)[k]].active
    ensures
      var games, r := Build(journals, records, extra, pick), records[Shown(records)[k]];
      var journal := JournalOf(journals, r.gameKey);
      && k < |games| && games[k].record == Some(r) && games[k].resume.Some?
      && (games[k].resume == Some(Journal) <==> journal.Some? && journal.value.status.Valid?)
      && (games[k].resume != Some(Journal) && Dated(UsableOf(games[k].sources)) ==> ResumesNewest(games[k]))
  {
    MergeIsComplete(journals, records, extra, pick);
    var r := records[Shown(records)[k]];
    assert Build(journals, records, extra, pick)[k] == HeldRecordGames(records, journals, extra, pick)[k];
    FullGameResumes(r, journals, extra, pick);
  }

  lemma FullGameResumes(r: Record, journals: seq<JournalEntry>, extra: seq<Extra>, pick: Pick)
    requires PlainExtras(extra) && r.active
    ensures
      var g, journal := FullRecordGame(r, journals, extra, pick), JournalOf(journals, r.gameKey);
      && g.resume.Some?
      && (g.resume == Some(Journal) <==> journal.Some? && journal.value.status.Valid?)
      && (g.resume != Some(Journal) && Dated(UsableOf(g.sources)) ==> ResumesNewest(g))
  {
    var g := FullRecordGame(r, journals, extra, pick);
    SafestIsSafest(g.sources, pick);
    ExtrasArePlain(extra, r.gameKey);
    assert g.sources[1] in g.sources && Usable(g.sources[1]);
    var journal := JournalOf(journals, r.gameKey);
    if journal.Some? && journal.value.status.Valid? {
      assert g.sources[0] == FromJournal(journal.value) && g.sources[0] in g.sources;
    } else {
      assert forall s :: s in g.sources && Usable(s) ==> !s.kind.Journal?;
      var best := Safest(g.sources, pick).value;
      assert Some(best.kind) == g.resume;
    }
  }

  // --- records that share a game key ----------------------------------------------------------------

  ghost predicate LastWithKey(records: seq<Record>, i: nat)
    requires i < |records|
  {
    forall m :: i < m < |records| ==> records[m].gameKey != records[i].gameKey
  }

  lemma {:induction false} OwnerIsTheLast(records: seq<Record>, i: nat)
    requires i < |records|
    ensures Owner(records, records[i].gameKey) == Some(i) <==> LastWithKey(records, i)
    decreases |records|
  {
    var n := |records| - 1;
    if i < n && records[n].gameKey != records[i].gameKey {
      OwnerIsTheLast(records[..n], i);
      assert LastWithKey(records[..n], i) <==> LastWithKey(records, i);
    }
  }

  /** What stands first among the copies of record `i`: its game's journal only if it is the last with that key. */
  lemma {:induction false} FirstCopyAfterJournals(
    journals: seq<JournalEntry>, records: seq<Record>, extra: seq<Extra>, pick: Pick, i: nat
  )
    requires i < |records|
    ensures
      var copies := AfterJournals(journals, records, extra, pick)[i].sources;
      var journal := JournalOf(journals, records[i].gameKey);
      copies != [] && copies[0] ==
        if Owner(records, records[i].gameKey) == Some(i) && journal.Some? then FromJournal(journal.value)
        else NO_JOURNAL
    decreases |journals|
  {
    if journals != [] {
      var n := |journals| - 1;
      FirstCopyAfterJournals(journals[..n], records, extra, pick, i);
      match Owner(records, journals[n].gameKey) {
        case Some(m) => OwnedCopy(journals, records, extra, pick, m, i);
        case None => UnownedCopy(journals, records, extra, pick, i);
      }
    }
  }

  /** The last journal is attached to the record that owns its key, and to no other. */
  lemma OwnedCopy(journals: seq<JournalEntry>, records: seq<Record>, extra: seq<Extra>, pick: Pick, m: nat, i: nat)
    requires journals != [] && i < |records| && Owner(records, journals[|journals| - 1].gameKey) == Some(m)
    ensures
      var before, after := AfterJournals(journals[..|journals| - 1], records, extra, pick)[i],
                           AfterJournals(journals, records, extra, pick)[i];
      if i == m then after.sources == [FromJournal(journals[|journals| - 1])] + OthersThanJournals(before.sources)
      else after == before
  {
  }

  lemma UnownedCopy(journals: seq<JournalEntry>, records: seq<Record>, extra: seq<Extra>, pick: Pick, i: nat)
    requires journals != [] && i < |records| && Owner(records, journals[|journals| - 1].gameKey).None?
    ensures AfterJournals(journals, records, extra, pick)[i]
      == AfterJournals(journals[..|journals| - 1], records, extra, pick)[i]
    ensures records[i].gameKey != journals[|journals| - 1].gameKey
  {
    assert records[i] in records;
    var before := AfterJournals(journals[..|journals| - 1], records, extra, pick);
    PutKeepsRecord(records, before, JournalGame(journals[|journals| - 1], extra, pick), i);
  }

  lemma PutKeepsRecord(records: seq<Record>, games: seq<Game>, g: Game, i: nat)
    requires RecordsFirst(records, games) && !g.key.OfRecord? && i < |records|
    ensures RecordsFirst(records, Put(games, g)) && Put(games, g)[i] == games[i]
  {
    PutBehind(records, games, g);
    assert Put(games, g)[..|records|][i] == games[..|records|][i];
  }

  lemma {:induction false} ExtrasKeepRecord(
    done: seq<Extra>, journals: seq<JournalEntry>, records: seq<Record>, extra: seq<Extra>, pick: Pick, i: nat
  )
    requires i < |records|
    ensures AfterExtras(done, journals, records, extra, pick)[i] == AfterJournals(journals, records, extra, pick)[i]
    decreases |done|
  {
    if done != [] {
      var n := |done| - 1;
      ExtrasKeepRecord(done[..n], journals, records, extra, pick, i);
      PutKeepsRecord(records, AfterExtras(done[..n], journals, records, extra, pick), SourceGame(done[n], pick), i);
    }
  }

  /**
   * A record whose game has a journal shows it, first among its copies, exactly when no later record has the
   * same game key; an earlier one says instead that there is none.
   */
  lemma JournalShownExactlyWhen(
    journals: seq<JournalEntry>, records: seq<Record>, extra: seq<Extra>, pick: Pick, k: nat, e: JournalEntry
  )
    requires k < |Shown(records)| && !e.status.Missing?
    requires JournalOf(journals, records[Shown(records)[k]].gameKey) == Some(e)
    ensures
      var games, i := Build(journals, records, extra, pick), Shown(records)[k];
      && k < |games| && games[k].record == Some(records[i]) && games[k].sources != []
      && (games[k].sources[0] == FromJournal(e) <==> LastWithKey(records, i))
      && (games[k].sources[0] == NO_JOURNAL <==> !LastWithKey(records, i))
  {
    var i := Shown(records)[k];
    FirstCopyAfterJournals(journals, records, extra, pick, i);
    ExtrasKeepRecord(extra, journals, records, extra, pick, i);
    OwnerIsTheLast(records, i);
    assert Build(journals, records, extra, pick)[k] == Made(journals, records, extra, pick)[i];
  }

  // --- what every entry resumes from ----------------------------------------------------------------

  /** A finished game is not resumed; anything else from its safest copy. */
  predicate ResumesRight(g: Game, pick: Pick)
  {
    g.resume == if g.record.Some? && !g.record.value.active then None else Resume(g.sources, pick)
  }

  ghost predicate AllRight(games: seq<Game>, pick: Pick)
  {
    forall i :: 0 <= i < |games| ==> ResumesRight(games[i], pick)
  }

  lemma {:induction false} PutKeepsRight(games: seq<Game>, g: Game, pick: Pick)
    requires AllRight(games, pick) && ResumesRight(g, pick)
    ensures AllRight(Put(games, g), pick)
    decreases |games|
  {
    if games != [] && games[0].key != g.key {
      PutKeepsRight(games[1..], g, pick);
    }
  }

  lemma {:induction false} JournalsResumeRight(
    journals: seq<JournalEntry>, records: seq<Record>, extra: seq<Extra>, pick: Pick
  )
    ensures AllRight(AfterJournals(journals, records, extra, pick), pick)
    decreases |journals|
  {
    if journals != [] {
      var n := |journals| - 1;
      JournalsResumeRight(journals[..n], records, extra, pick);
      if Owner(records, journals[n].gameKey).None? {
        PutKeepsRight(AfterJournals(journals[..n], records, extra, pick), JournalGame(journals[n], extra, pick), pick);
      }
    }
  }

  lemma {:induction false} ExtrasResumeRight(
    done: seq<Extra>, journals: seq<JournalEntry>, records: seq<Record>, extra: seq<Extra>, pick: Pick
  )
    ensures AllRight(AfterExtras(done, journals, records, extra, pick), pick)
    decreases |done|
  {
    if done == [] {
      JournalsResumeRight(journals, records, extra, pick);
    } else {
      var n := |done| - 1;
      ExtrasResumeRight(done[..n], journals, records, extra, pick);
      PutKeepsRight(AfterExtras(done[..n], journals, records, extra, pick), SourceGame(done[n], pick), pick);
    }
  }

  /**
   * Whatever the records, journals and sources: a finished game offers nothing to resume, and any other entry does
   * exactly when it has a usable copy, from a journal exactly when it has a usable one.
   */
  lemma EntriesResume(journals: seq<JournalEntry>, records: seq<Record>, extra: seq<Extra>, pick: Pick, k: nat)
    requires k < |Build(journals, records, extra, pick)|
    ensures
      var g := Build(journals, records, extra, pick)[k];
      if g.record.Some? && !g.record.value.active then g.resume.None?
      else
        && (g.resume.Some? <==> exists s :: s in g.sources && Usable(s))
        && (g.resume == Some(Journal) <==> exists s :: s in g.sources && Usable(s) && s.kind.Journal?)
  {
    ExtrasResumeRight(extra, journals, records, extra, pick);
    EntryWasMade(journals, records, extra, pick, k);
    var g := Build(journals, records, extra, pick)[k];
    assert ResumesRight(g, pick);
    SafestIsSafest(g.sources, pick);
  }

  lemma EntryWasMade(journals: seq<JournalEntry>, records: seq<Record>, extra: seq<Extra>, pick: Pick, k: nat)
    requires k < |Build(journals, records, extra, pick)|
    ensures
      var made := Made(journals, records, extra, pick);
      exists i :: 0 <= i < |made| && Build(journals, records, extra, pick)[k] == made[i]
  {
    var made, shown := Made(journals, records, extra, pick), Shown(records);
    HeldWasMade(shown, records, made, k);
  }

  lemma HeldWasMade(shown: seq<nat>, records: seq<Record>, made: seq<Game>, k: nat)
    requires |records| <= |made| && Positions(shown, records) && k < |Held(shown, records, made)|
    ensures exists i :: 0 <= i < |made| && Held(shown, records, made)[k] == made[i]
  {
    if k < |shown| {
      assert Held(shown, records, made)[k] == made[shown[k]];
    } else {
      assert Held(shown, records, made)[k] == made[|records| + (k - |shown|)];
    }
  }

  /** `Map.set` keeps the order: a game takes the place of the one under its key, or goes to the end. */
  lemma {:induction false} PutReplaces(games: seq<Game>, g: Game, i: nat)
    requires i <= |games| && (i < |games| ==> games[i].key == g.key)
    requires forall j :: 0 <= j < i ==> games[j].key != g.key
    ensures Put(games, g) == games[..i] + [g] + (if i < |games| then games[i + 1..] else [])
    decreases |games|
  {
    if i > 0 {
      PutReplaces(games[1..], g, i - 1);
      assert games[..i] == [games[0]] + games[1..][..i - 1];
    }
  }

  /** A journal is an exact copy exactly when it is valid, and says when it was written. */
  lemma JournalCopies(e: JournalEntry)
    ensures FromJournal(e) == Source(e.gameKey, Journal, e.status, Usable(FromJournal(e)), e.updatedAt)
    ensures Usable(FromJournal(e)) <==> e.status.Valid?
  {
  }
}
