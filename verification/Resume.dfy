// Which unfinished game a device may resume, and where it starts (src/app/App.tsx, with the handoff rules of
// src/game/GameStore.ts).
module Resume {
  import opened Text

  datatype Record = Record(
    id: Str, gameKey: Str, connected: bool, completed: bool, roomId: Option<Str>, tournamentKey: Option<Str>,
    sent: bool, handoffInstruction: bool, manual: bool, downloaded: bool, acknowledged: bool)

  datatype Connection = Connection(
    gameRecordId: Option<Str>, sessionId: Option<Str>, roomId: Str, tournamentKey: Option<Str>)

  predicate IsActive(r: Record) { !r.completed }

  predicate Unfinished(r: Record) { r.connected && IsActive(r) }

  predicate FromRoom(c: Connection, r: Record)
  {
    r.roomId == Some(c.roomId) && (c.tournamentKey.None? || r.tournamentKey == c.tournamentKey)
  }

  /** `unfinishedGameDependsOnConnection`. */
  predicate Depends(connection: Option<Connection>, r: Record)
  {
    && connection.Some? && Unfinished(r)
    && var c := connection.value;
       c.gameRecordId == Some(r.id) || c.sessionId == Some(r.gameKey) || FromRoom(c, r)
  }

  function Filter(records: seq<Record>, p: Record -> bool): seq<Record>
  {
    if records == [] then []
    else (if p(records[0]) then [records[0]] else []) + Filter(records[1..], p)
  }

  function Find(records: seq<Record>, p: Record -> bool): Option<Record>
  {
    if records == [] then None
    else if p(records[0]) then Some(records[0])
    else Find(records[1..], p)
  }

  function ById(c: Connection): Record -> bool { (r: Record) => c.gameRecordId == Some(r.id) }

  function BySession(c: Connection): Record -> bool { (r: Record) => c.sessionId == Some(r.gameKey) }

  function ByRoom(c: Connection): Record -> bool { (r: Record) => FromRoom(c, r) }

  /** `resumeRecordForConnection`. */
  function ResumeRecord(connection: Option<Connection>, records: seq<Record>): Option<Record>
  {
    if connection.None? then None
    else
      var c, unfinished := connection.value, Filter(records, Unfinished);
      if Find(unfinished, ById(c)).Some? then Find(unfinished, ById(c))
      else if Find(unfinished, BySession(c)).Some? then Find(unfinished, BySession(c))
      else OnlyOne(Filter(unfinished, ByRoom(c)))
  }

  function OnlyOne(records: seq<Record>): Option<Record>
  {
    if |records| == 1 then Some(records[0]) else None
  }

  // --- what is resumed depends on the pairing -------------------------------------------------------

  lemma {:induction false} FilterIs(records: seq<Record>, p: Record -> bool)
    ensures forall r :: r in Filter(records, p) <==> r in records && p(r)
  {
    if records != [] {
      FilterIs(records[1..], p);
    }
  }

  lemma {:induction false} FindIs(records: seq<Record>, p: Record -> bool)
    ensures Find(records, p).Some? <==> exists r :: r in records && p(r)
    ensures Find(records, p).Some? ==> Find(records, p).value in records && p(Find(records, p).value)
  {
    if records != [] {
      FindIs(records[1..], p);
    }
  }

  /** Protection is at least as wide as resumption. */
  lemma ResumedDepends(connection: Option<Connection>, records: seq<Record>)
    requires ResumeRecord(connection, records).Some?
    ensures ResumeRecord(connection, records).value in records
    ensures Depends(connection, ResumeRecord(connection, records).value)
  {
    var c, unfinished := connection.value, Filter(records, Unfinished);
    FilterIs(records, Unfinished);
    FindIs(unfinished, ById(c));
    FindIs(unfinished, BySession(c));
    FilterIs(unfinished, ByRoom(c));
    assert |Filter(unfinished, ByRoom(c))| == 1 ==> Filter(unfinished, ByRoom(c))[0] in Filter(unfinished, ByRoom(c));
  }

  /**
   * A game depends on the pairing exactly when it is unfinished and connected and the pairing names it, or names
   * its session, or is for its room (in its tournament, where the pairing says which). That is when it would be
   * resumed if it were alone on the device.
   */
  lemma DependsExactlyWhen(connection: Option<Connection>, r: Record)
    ensures Depends(connection, r) <==>
      && connection.Some? && r.connected && !r.completed
      && (connection.value.gameRecordId == Some(r.id) || connection.value.sessionId == Some(r.gameKey)
          || (r.roomId == Some(connection.value.roomId)
              && connection.value.tournamentKey in {None, r.tournamentKey}))
    ensures Depends(connection, r) <==> ResumeRecord(connection, [r]) == Some(r)
  {
    Alone(r, Unfinished);
    if connection.Some? {
      Alone(r, ById(connection.value));
      Alone(r, BySession(connection.value));
      Alone(r, ByRoom(connection.value));
    }
  }

  lemma Alone(r: Record, p: Record -> bool)
    ensures Filter([r], p) == if p(r) then [r] else []
    ensures Find([r], p) == if p(r) then Some(r) else None
    ensures Filter([], p) == [] && Find([], p) == None
  {
  }

  // --- order ----------------------------------------------------------------------------------------

  /** Records are stored under their ids. */
  ghost predicate DistinctIds(records: seq<Record>)
  {
    forall i, j :: 0 <= i < j < |records| ==> records[i].id != records[j].id
  }

  predicate HasSession(c: Connection, r: Record) { Unfinished(r) && BySession(c)(r) }

  /** At most one unfinished game has the session's key. */
  ghost predicate OneForSession(c: Connection, records: seq<Record>)
  {
    forall r, s :: r in records && s in records && HasSession(c, r) && HasSession(c, s) ==> r == s
  }

  ghost predicate NamesRecord(c: Connection, records: seq<Record>)
  {
    exists r :: r in records && Unfinished(r) && ById(c)(r)
  }

  ghost predicate SameElements(a: seq<Record>, b: seq<Record>)
  {
    forall r :: r in a <==> r in b
  }

  lemma {:induction false} FilterDistinct(records: seq<Record>, p: Record -> bool)
    requires DistinctIds(records)
    ensures DistinctIds(Filter(records, p))
  {
    if records != [] {
      FilterDistinct(records[1..], p);
      FilterIs(records[1..], p);
      var rest := Filter(records[1..], p);
      forall j | 0 <= j < |rest| ensures rest[j].id != records[0].id {
        assert rest[j] in records[1..];
      }
    }
  }

  /** Of lists without repeats, one has a single element exactly when all its elements are the same. */
  lemma SingleElement(a: seq<Record>, b: seq<Record>)
    requires DistinctIds(a) && DistinctIds(b) && SameElements(a, b)
    ensures |a| == 1 ==> |b| == 1 && a[0] == b[0]
  {
    if |a| == 1 {
      assert a[0] in b;
      forall i | 0 <= i < |b| ensures b[i] == a[0] {
        assert b[i] in a;
      }
      assert |b| > 1 ==> b[0].id != b[1].id;
    }
  }

  lemma SameFind(a: seq<Record>, b: seq<Record>, p: Record -> bool)
    requires SameElements(a, b)
    requires forall r, s :: r in a && s in a && p(r) && p(s) ==> r == s
    ensures Find(a, p) == Find(b, p)
  {
    FindIs(a, p);
    FindIs(b, p);
  }

  lemma OneById(c: Connection, records: seq<Record>)
    requires DistinctIds(records)
    ensures forall r, s :: r in records && s in records && ById(c)(r) && ById(c)(s) ==> r == s
  {
  }

  /**
   * The record resumed does not depend on the order of the list, as long as the connection names an unfinished
   * record or at most one unfinished game has its session's key.
   */
  lemma OrderDoesNotMatter(c: Connection, a: seq<Record>, b: seq<Record>)
    requires DistinctIds(a) && DistinctIds(b) && SameElements(a, b)
    requires NamesRecord(c, a) || OneForSession(c, a)
    ensures ResumeRecord(Some(c), a) == ResumeRecord(Some(c), b)
  {
    var x, y := Filter(a, Unfinished), Filter(b, Unfinished);
    SameFilter(a, b, Unfinished);
    SameById(c, x, y);
    SameByRoom(c, x, y);
    NamedIsFound(c, a);
    if Find(x, ById(c)).None? {
      SameBySession(c, a, x, y);
    }
  }

  lemma NamedIsFound(c: Connection, records: seq<Record>)
    ensures NamesRecord(c, records) <==> Find(Filter(records, Unfinished), ById(c)).Some?
  {
    FilterIs(records, Unfinished);
    FindIs(Filter(records, Unfinished), ById(c));
  }

  lemma SameById(c: Connection, x: seq<Record>, y: seq<Record>)
    requires DistinctIds(x) && SameElements(x, y)
    ensures Find(x, ById(c)) == Find(y, ById(c))
  {
    OneById(c, x);
    SameFind(x, y, ById(c));
  }

  lemma SameBySession(c: Connection, a: seq<Record>, x: seq<Record>, y: seq<Record>)
    requires OneForSession(c, a) && x == Filter(a, Unfinished) && SameElements(x, y)
    ensures Find(x, BySession(c)) == Find(y, BySession(c))
  {
    FilterIs(a, Unfinished);
    forall r, s | r in x && s in x && BySession(c)(r) && BySession(c)(s) ensures r == s {
      assert HasSession(c, r) && HasSession(c, s);
    }
    SameFind(x, y, BySession(c));
  }

  lemma SameByRoom(c: Connection, x: seq<Record>, y: seq<Record>)
    requires DistinctIds(x) && DistinctIds(y) && SameElements(x, y)
    ensures OnlyOne(Filter(x, ByRoom(c))) == OnlyOne(Filter(y, ByRoom(c)))
  {
    SameFilter(x, y, ByRoom(c));
    SingleElement(Filter(x, ByRoom(c)), Filter(y, ByRoom(c)));
    SingleElement(Filter(y, ByRoom(c)), Filter(x, ByRoom(c)));
  }

  lemma SameFilter(a: seq<Record>, b: seq<Record>, p: Record -> bool)
    requires DistinctIds(a) && DistinctIds(b) && SameElements(a, b)
    ensures DistinctIds(Filter(a, p)) && DistinctIds(Filter(b, p)) && SameElements(Filter(a, p), Filter(b, p))
  {
    FilterIs(a, p);
    FilterIs(b, p);
    FilterDistinct(a, p);
    FilterDistinct(b, p);
  }

  /** The list with its i-th record in front. */
  function Promote(records: seq<Record>, i: nat): seq<Record>
    requires i < |records|
  {
    [records[i]] + records[..i] + records[i + 1..]
  }

  ghost predicate Reordering(a: seq<Record>, b: seq<Record>) { multiset(a) == multiset(b) }

  lemma ReorderingKeeps(a: seq<Record>, b: seq<Record>)
    requires Reordering(a, b) && DistinctIds(a)
    ensures SameElements(a, b) && DistinctIds(b)
  {
    forall r ensures r in a <==> r in b {
      assert r in a <==> r in multiset(a);
      assert r in b <==> r in multiset(b);
    }
    forall i, j | 0 <= i < j < |b| ensures b[i].id != b[j].id {
      if b[i] == b[j] {
        assert b == b[..i] + [b[i]] + b[i + 1..j] + [b[j]] + b[j + 1..];
        assert multiset(b)[b[i]] >= 2;
        DistinctCounts(a, b[i]);
      }
      assert b[i] in a && b[j] in a;
    }
  }

  lemma {:induction false} DistinctCounts(a: seq<Record>, r: Record)
    requires DistinctIds(a)
    ensures multiset(a)[r] <= 1
  {
    if a != [] {
      DistinctCounts(a[1..], r);
      assert a == [a[0]] + a[1..];
      if a[0] == r {
        assert forall i :: 0 <= i < |a[1..]| ==> a[1..][i] != r;
        assert r !in multiset(a[1..]);
      }
    }
  }

  lemma PromoteIsAReordering(records: seq<Record>, i: nat)
    requires i < |records|
    ensures Reordering(records, Promote(records, i))
  {
    assert records == records[..i] + [records[i]] + records[i + 1..];
  }

  lemma PromotedIsResumed(c: Connection, records: seq<Record>, i: nat)
    requires i < |records| && Unfinished(records[i]) && BySession(c)(records[i]) && !NamesRecord(c, records)
    requires DistinctIds(records)
    ensures ResumeRecord(Some(c), Promote(records, i)) == Some(records[i])
  {
    var p := Promote(records, i);
    PromoteIsAReordering(records, i);
    ReorderingKeeps(records, p);
    FilterIs(p, Unfinished);
    FindIs(Filter(p, Unfinished), ById(c));
    assert Filter(p, Unfinished)[0] == records[i];
  }

  /**
   * Over records with distinct ids, some reordering changes what is resumed exactly when the connection names
   * no unfinished record and two unfinished games share its session's key.
   */
  lemma OrderMattersExactlyWhen(c: Connection, records: seq<Record>)
    requires DistinctIds(records)
    ensures
      (exists other :: Reordering(records, other) && ResumeRecord(Some(c), other) != ResumeRecord(Some(c), records))
      <==> !NamesRecord(c, records) && !OneForSession(c, records)
  {
    if !NamesRecord(c, records) && !OneForSession(c, records) {
      var r, s :| r in records && s in records && HasSession(c, r) && HasSession(c, s) && r != s;
      var i :| 0 <= i < |records| && records[i] == r;
      var j :| 0 <= j < |records| && records[j] == s;
      PromotedIsResumed(c, records, i);
      PromotedIsResumed(c, records, j);
      PromoteIsAReordering(records, i);
      PromoteIsAReordering(records, j);
    } else {
      forall other | Reordering(records, other) ensures ResumeRecord(Some(c), other) == ResumeRecord(Some(c), records) {
        ReorderingKeeps(records, other);
        OrderDoesNotMatter(c, records, other);
      }
    }
  }

  // --- where the application starts -----------------------------------------------------------------

  predicate IsDelivered(r: Record) { r.sent && !r.handoffInstruction }

  predicate RequiresHandoff(r: Record) { r.connected || r.handoffInstruction || !r.manual }

  predicate NeedsHandoff(r: Record)
  {
    && !IsActive(r) && !IsDelivered(r) && RequiresHandoff(r)
    && (!r.downloaded || ((r.connected || r.handoffInstruction) && !r.acknowledged))
  }

  /**
   * What is still owed: the result of a finished game that was not delivered, or was sent with something left to
   * hand over. A connected game, and one with something to hand over, is owed until it has been downloaded and
   * that was acknowledged; any other until it is downloaded, and never if it was made by hand.
   */
  lemma OwedExactlyWhen(r: Record)
    ensures NeedsHandoff(r) <==>
      && r.completed && (r.sent ==> r.handoffInstruction)
      && if r.connected || r.handoffInstruction then !(r.downloaded && r.acknowledged)
         else !(r.downloaded || r.manual)
  {
  }

  datatype Screen = Home | Room | Completed(recordId: Str) | Pairing(intent: nat, returnToRoom: bool)

  datatype Launch = NoLaunch | Problem | Intent(intent: nat)

  datatype Notice = Nothing | ProblemMessage | UnreadableBlocks | GameBlocks(record: Record)

  /** `unreadableGameDependsOnConnection`; the ids are those of rows this build cannot read. */
  predicate UnreadableDepends(connection: Option<Connection>, unreadable: seq<Str>)
  {
    && connection.Some? && connection.value.gameRecordId.Some? && connection.value.gameRecordId.value != []
    && connection.value.gameRecordId.value in unreadable
  }

  function ScreenAfterLoad(connection: Option<Connection>, records: seq<Record>, unreadable: seq<Str>): Screen
  {
    var linked :=
      if connection.Some? && connection.value.gameRecordId.Some? && connection.value.gameRecordId.value != []
      then Find(records, ById(connection.value)) else None;
    if linked.Some? && NeedsHandoff(linked.value) then Completed(linked.value.id)
    else if UnreadableDepends(connection, unreadable) then Home
    else if ResumeRecord(connection, records).Some? then Room
    else if connection.None? || Find(records, IsActive).Some? then Home
    else Room
  }

  function ScreenAfterLaunch(launch: Launch, connection: Option<Connection>, records: seq<Record>, unreadable: seq<Str>)
    : (Screen, Notice)
  {
    var ordinary := ScreenAfterLoad(connection, records, unreadable);
    match launch
    case Problem => (ordinary, ProblemMessage)
    case NoLaunch => (ordinary, Nothing)
    case Intent(intent) =>
      if UnreadableDepends(connection, unreadable) then (ordinary, UnreadableBlocks)
      else
        var dependent := Find(records, r => Depends(connection, r));
        if dependent.Some? then (ordinary, GameBlocks(dependent.value))
        else (Pairing(intent, connection.Some?), Nothing)
  }

  /**
   * A link leads to pairing exactly when it is valid and nothing on the device depends on the pairing it
   * would replace; so it never does on a device with a game to resume, and then the device starts where it
   * would have started without a link.
   */
  lemma PairsExactlyWhen(launch: Launch, connection: Option<Connection>, records: seq<Record>, unreadable: seq<Str>)
    ensures
      var (screen, notice) := ScreenAfterLaunch(launch, connection, records, unreadable);
      && (screen.Pairing? <==>
            && launch.Intent? && !UnreadableDepends(connection, unreadable)
            && forall r :: r in records ==> !Depends(connection, r))
      && (!screen.Pairing? ==> screen == ScreenAfterLoad(connection, records, unreadable))
      && (ResumeRecord(connection, records).Some? ==> !screen.Pairing?)
      && (screen.Pairing? ==> screen == Pairing(launch.intent, connection.Some?) && notice == Nothing)
      && (notice.ProblemMessage? <==> launch.Problem?)
      && (notice.UnreadableBlocks? <==> launch.Intent? && UnreadableDepends(connection, unreadable))
      && (notice.GameBlocks? <==> launch.Intent? && !screen.Pairing? && !UnreadableDepends(connection, unreadable))
      && (notice.GameBlocks? ==> notice.record in records && Depends(connection, notice.record))
  {
    FindIs(records, r => Depends(connection, r));
    if ResumeRecord(connection, records).Some? {
      ResumedDepends(connection, records);
    }
  }

  /** The record the connection names, and its result is still owed. */
  predicate OwesHandoff(connection: Option<Connection>, r: Record)
  {
    connection.Some? && connection.value.gameRecordId == Some(r.id) && r.id != [] && NeedsHandoff(r)
  }

  lemma CompletedExactlyWhen(connection: Option<Connection>, records: seq<Record>, unreadable: seq<Str>)
    ensures
      var screen := ScreenAfterLoad(connection, records, unreadable);
      && (screen.Completed? ==> connection.Some? && connection.value.gameRecordId == Some(screen.recordId))
      && (screen.Completed? ==> exists r :: r in records && OwesHandoff(connection, r))
      && (DistinctIds(records) ==> (screen.Completed? <==> exists r :: r in records && OwesHandoff(connection, r)))
  {
    if connection.Some? {
      FindIs(records, ById(connection.value));
      if DistinctIds(records) {
        OneById(connection.value, records);
      }
    }
  }

  /**
   * Where a device starts: at a result still owed, exactly for the connection's own finished game; otherwise in
   * its room exactly when a connection has a game to resume, or nothing on the device is unfinished, and no
   * unreadable game is in the way.
   */
  lemma StartsInTheRoomExactlyWhen(connection: Option<Connection>, records: seq<Record>, unreadable: seq<Str>)
    ensures
      var screen := ScreenAfterLoad(connection, records, unreadable);
      && !screen.Pairing?
      && (screen.Completed? ==> connection.Some? && connection.value.gameRecordId == Some(screen.recordId))
      && (screen.Completed? ==> exists r :: r in records && OwesHandoff(connection, r))
      && (DistinctIds(records) ==> (screen.Completed? <==> exists r :: r in records && OwesHandoff(connection, r)))
      && (!screen.Completed? ==>
            (screen.Room? <==>
               && connection.Some? && !UnreadableDepends(connection, unreadable)
               && (ResumeRecord(connection, records).Some? || forall r :: r in records ==> !IsActive(r))))
  {
    FindIs(records, IsActive);
    CompletedExactlyWhen(connection, records, unreadable);
  }

  // --- which record, exactly ------------------------------------------------------------------------

  lemma {:induction false} OnlyOneIs(records: seq<Record>)
    requires DistinctIds(records)
    ensures forall r :: OnlyOne(records) == Some(r) <==> r in records && forall other :: other in records ==> other == r
  {
    if |records| > 1 {
      assert records[0] in records && records[1] in records && records[0].id != records[1].id;
    }
  }

  /** The only unfinished record of the connection's room. */
  ghost predicate OnlyOfRoom(c: Connection, records: seq<Record>, r: Record)
  {
    && r in records && Unfinished(r) && FromRoom(c, r)
    && forall other :: other in records && Unfinished(other) && FromRoom(c, other) ==> other == r
  }

  /**
   * Over records with distinct ids: the record the connection names, if it is unfinished; else one with the
   * session's key, if there is any; else the only unfinished one of the room, if there is exactly one.
   */
  lemma ResumesExactly(c: Connection, records: seq<Record>)
    requires DistinctIds(records)
    ensures
      var resumed := ResumeRecord(Some(c), records);
      if NamesRecord(c, records)
      then
        && resumed.Some? && resumed.value in records && Unfinished(resumed.value)
        && c.gameRecordId == Some(resumed.value.id)
      else if exists r :: r in records && HasSession(c, r)
      then resumed.Some? && resumed.value in records && HasSession(c, resumed.value)
      else forall r :: resumed == Some(r) <==> OnlyOfRoom(c, records, r)
  {
    var unfinished := Filter(records, Unfinished);
    FilterIs(records, Unfinished);
    NamedIsFound(c, records);
    FindIs(unfinished, ById(c));
    FindIs(unfinished, BySession(c));
    SessionIsFound(c, records);
    FilterDistinct(records, Unfinished);
    FilterIs(unfinished, ByRoom(c));
    FilterDistinct(unfinished, ByRoom(c));
    OnlyOneIs(Filter(unfinished, ByRoom(c)));
  }

  lemma SessionIsFound(c: Connection, records: seq<Record>)
    ensures (exists r :: r in records && HasSession(c, r)) <==> Find(Filter(records, Unfinished), BySession(c)).Some?
  {
    FilterIs(records, Unfinished);
    FindIs(Filter(records, Unfinished), BySession(c));
  }
}
