// One tab's claim on the game it is scoring (`takeClaim`, `openRecord` and leaving a game in src/app/App.tsx),
// over the browser's locks, of which each game has one for all tabs (src/persistence/TabClaim.ts).
//
// Opening a game asks for its lock and goes on when the answer is there; leaving one releases the claim,
// refreshes the list and only then changes the screen. Each event is what runs without waiting.
module TabClaims {
  import opened Text

  datatype Claim = Claim(id: nat, game: Str, held: bool)

  datatype Opening = Asking(game: Str) | Answered(claim: Claim)

  datatype Screen = Elsewhere | Scoring(game: Str) | Duplicate(game: Str)

  /** Who has a game's lock: a claim of this tab, or another tab. */
  datatype Owner = Mine(id: nat) | Other

  datatype Tab = Tab(
    current: Option<Claim>, screen: Screen, openings: map<nat, Opening>, leaving: nat,
    locks: map<Str, Owner>, next: nat)

  const FIRST := Tab(None, Elsewhere, map[], 0, map[], 0)

  datatype Event =
    | Open(game: Str)
    | Decide(id: nat)
    | Resume(id: nat, stale: bool)
    | StartLeaving
    | Leave
    | OtherTakes(game: Str)
    | OtherFrees(game: Str)

  /** `release`: once released or never held, it does nothing. */
  function Release(t: Tab): Tab
  {
    match t.current
    case Some(Claim(id, game, true)) =>
      if game in t.locks && t.locks[game] == Mine(id) then t.(locks := t.locks - {game}) else t
    case _ => t
  }

  /** A game is opened from a screen other than the scoresheet, and left from the scoresheet. */
  predicate Enabled(t: Tab, e: Event)
  {
    match e
    case Open(_) => !t.screen.Scoring?
    case Decide(id) => id in t.openings && t.openings[id].Asking?
    case Resume(id, _) => id in t.openings && t.openings[id].Answered?
    case StartLeaving => t.screen.Scoring?
    case Leave => t.leaving > 0
    case OtherTakes(game) => game !in t.locks
    case OtherFrees(game) => game in t.locks && t.locks[game].Other?
  }

  function Step(t: Tab, e: Event): Tab
    requires Enabled(t, e)
  {
    match e
    case Open(game) => Release(t).(openings := t.openings[t.next := Asking(game)], next := t.next + 1)
    case Decide(id) =>
      var game := t.openings[id].game;
      var held := game !in t.locks;
      t.(openings := t.openings[id := Answered(Claim(id, game, held))],
         locks := if held then t.locks[game := Mine(id)] else t.locks)
    case Resume(id, stale) =>
      var claim := t.openings[id].claim;
      var taken := t.(openings := t.openings - {id}, current := Some(claim));
      if stale then (if claim.held then Release(taken).(current := None) else taken)
      else taken.(screen := if claim.held then Scoring(claim.game) else Duplicate(claim.game))
    case StartLeaving => Release(t).(current := None, leaving := t.leaving + 1)
    case Leave => t.(screen := Elsewhere, leaving := t.leaving - 1)
    case OtherTakes(game) => t.(locks := t.locks[game := Other])
    case OtherFrees(game) => t.(locks := t.locks - {game})
  }

  /** One thing at a time: nothing is opened or left while an opening or a leaving is on its way. */
  predicate InTurn(t: Tab, e: Event)
  {
    e.Open? || e.StartLeaving? ==> t.openings == map[] && t.leaving == 0
  }

  function Run(events: seq<Event>): Option<Tab>
  {
    if events == [] then Some(FIRST)
    else
      var before := Run(events[..|events| - 1]);
      if before.Some? && Enabled(before.value, events[|events| - 1])
      then Some(Step(before.value, events[|events| - 1])) else None
  }

  /** Each event of the run came in its turn. */
  ghost predicate AllInTurn(events: seq<Event>)
  {
    forall n :: 0 <= n < |events| && Run(events[..n]).Some? ==> InTurn(Run(events[..n]).value, events[n])
  }

  // --- the invariant --------------------------------------------------------------------------------

  /** The claim of this tab that a lock belongs to: the current one, or one about to become current. */
  predicate Accounted(t: Tab, game: Str, id: nat)
  {
    t.current == Some(Claim(id, game, true)) || (id in t.openings && t.openings[id] == Answered(Claim(id, game, true)))
  }

  predicate OwnsLock(t: Tab, c: Claim)
  {
    c.held && c.game in t.locks && t.locks[c.game] == Mine(c.id)
  }

  /** The tab knows of every lock it holds. */
  ghost predicate AllAccounted(t: Tab)
  {
    forall game :: game in t.locks && t.locks[game].Mine? ==> Accounted(t, game, t.locks[game].id)
  }

  ghost predicate Inv(t: Tab)
  {
    && (forall i, j :: i in t.openings && j in t.openings ==> i == j)
    && (t.openings != map[] ==> t.leaving == 0 && !t.screen.Scoring?)
    && t.leaving <= 1
    && AllAccounted(t)
    && (forall i :: i in t.openings ==> i < t.next && (t.openings[i].Answered? ==>
          t.openings[i].claim.id == i && (t.openings[i].claim.held ==> OwnsLock(t, t.openings[i].claim))))
    && (t.current.Some? ==> t.current.value.id < t.next && t.current.value.id !in t.openings)
    && (t.leaving > 0 ==> t.current.None? && t.screen.Scoring?)
    && (t.screen.Scoring? && t.leaving == 0 ==>
          t.current.Some? && OwnsLock(t, t.current.value) && t.current.value.game == t.screen.game)
    // While something is being opened, the claim before it has been released.
    && (t.openings != map[] && t.current.Some? ==> !OwnsLock(t, t.current.value))
  }

  lemma OpenKeeps(t: Tab, game: Str)
    requires Inv(t) && Enabled(t, Open(game)) && InTurn(t, Open(game))
    ensures Inv(Step(t, Open(game)))
  {
    var after := Step(t, Open(game));
    assert forall g :: g in after.locks ==> g in t.locks && after.locks[g] == t.locks[g];
    assert forall g :: g in after.locks ==> after.locks[g].Other?;
  }

  lemma DecideKeeps(t: Tab, id: nat)
    requires Inv(t) && Enabled(t, Decide(id))
    ensures Inv(Step(t, Decide(id)))
  {
    var after := Step(t, Decide(id));
    forall g | g in after.locks && after.locks[g].Mine? ensures Accounted(after, g, after.locks[g].id) {
      if g in t.locks {
        assert after.locks[g] == t.locks[g];
        assert Accounted(t, g, t.locks[g].id);
      }
    }
  }

  lemma ResumeKeeps(t: Tab, id: nat, stale: bool)
    requires Inv(t) && Enabled(t, Resume(id, stale))
    ensures Inv(Step(t, Resume(id, stale)))
  {
    var after, claim := Step(t, Resume(id, stale)), t.openings[id].claim;
    assert after.openings == map[];
    forall g | g in after.locks && after.locks[g].Mine? ensures Accounted(after, g, after.locks[g].id) {
      assert g in t.locks && after.locks[g] == t.locks[g];
      assert Accounted(t, g, t.locks[g].id);
    }
  }

  lemma LeavingKeeps(t: Tab, e: Event)
    requires Inv(t) && Enabled(t, e) && InTurn(t, e) && (e.StartLeaving? || e.Leave?)
    ensures Inv(Step(t, e))
  {
    var after := Step(t, e);
    assert forall g :: g in after.locks ==> g in t.locks && after.locks[g] == t.locks[g];
  }

  lemma OthersKeep(t: Tab, e: Event)
    requires Inv(t) && Enabled(t, e) && (e.OtherTakes? || e.OtherFrees?)
    ensures Inv(Step(t, e))
  {
    var after := Step(t, e);
    assert forall g :: g != e.game ==>
      (g in after.locks <==> g in t.locks) && (g in t.locks ==> after.locks[g] == t.locks[g]);
  }

  lemma StepKeeps(t: Tab, e: Event)
    requires Inv(t) && Enabled(t, e) && InTurn(t, e)
    ensures Inv(Step(t, e))
  {
    match e {
      case Open(game) => OpenKeeps(t, game);
      case Decide(id) => DecideKeeps(t, id);
      case Resume(id, stale) => ResumeKeeps(t, id, stale);
      case StartLeaving => LeavingKeeps(t, e);
      case Leave => LeavingKeeps(t, e);
      case OtherTakes(_) => OthersKeep(t, e);
      case OtherFrees(_) => OthersKeep(t, e);
    }
  }

  lemma {:induction false} RunKeeps(events: seq<Event>, t: Tab)
    requires Run(events) == Some(t) && AllInTurn(events)
    ensures Inv(t)
    decreases |events|
  {
    if events != [] {
      var n := |events| - 1;
      var before := events[..n];
      forall m | 0 <= m < n && Run(before[..m]).Some? ensures InTurn(Run(before[..m]).value, before[m]) {
        assert before[..m] == events[..m];
      }
      RunKeeps(before, Run(before).value);
      StepKeeps(Run(before).value, events[n]);
    }
  }

  /**
   * One thing at a time: a game is on the scoresheet only under its own lock, except between leaving it and
   * the screen following; and no lock is kept that the tab no longer knows of.
   */
  lemma ScoringIsClaimed(events: seq<Event>, t: Tab)
    requires Run(events) == Some(t) && AllInTurn(events)
    ensures t.screen.Scoring? && t.leaving == 0 ==>
      t.current.Some? && t.current.value.game == t.screen.game && OwnsLock(t, t.current.value)
    ensures t.openings == map[] && !t.screen.Scoring? ==>
      forall game :: game in t.locks && t.locks[game].Mine? ==> t.current.Some? && t.current.value.game == game
    ensures t.leaving > 0 || (t.openings == map[] && t.current.None?) ==>
      forall game :: game in t.locks ==> t.locks[game].Other?
  {
    RunKeeps(events, t);
    forall game | game in t.locks && t.locks[game].Mine? ensures Accounted(t, game, t.locks[game].id) {
    }
  }

  /**
   * One thing at a time: an opening whose game is still wanted shows it exactly when its lock was free, and the
   * notice that it is open elsewhere otherwise; one that has been overtaken changes no screen and keeps no lock.
   */
  lemma OpeningDecides(events: seq<Event>, t: Tab, id: nat, stale: bool)
    requires Run(events) == Some(t) && AllInTurn(events) && Enabled(t, Resume(id, stale))
    ensures
      var after, claim := Step(t, Resume(id, stale)), t.openings[id].claim;
      && after.openings == map[]
      && (!stale ==> after.screen == (if claim.held then Scoring(claim.game) else Duplicate(claim.game)))
      && (!stale && claim.held ==> after.current == Some(claim) && OwnsLock(after, claim))
      && (stale ==> after.screen == t.screen && forall game :: game in after.locks ==> after.locks[game].Other?)
  {
    RunKeeps(events, t);
    ResumeKeeps(t, id, stale);
    assert AllAccounted(Step(t, Resume(id, stale)));
  }

  /** An answered claim is held exactly when nobody had the lock of its game. */
  lemma LockIsGivenExactlyWhen(t: Tab, id: nat)
    requires Enabled(t, Decide(id))
    ensures
      var after, game := Step(t, Decide(id)), t.openings[id].game;
      && after.openings[id].Answered? && after.openings[id].claim.game == game
      && (after.openings[id].claim.held <==> game !in t.locks)
      && game in after.locks && (game in t.locks ==> after.locks == t.locks)
      && (game !in t.locks ==> after.locks[game] == Mine(id))
  {
  }

  // --- when a lock is lost sight of, in any order of events -----------------------------------------

  /** Claims are numbered: an answered opening by its own number, the current claim by none of an opening. */
  ghost predicate Numbered(t: Tab)
  {
    && (forall i :: i in t.openings ==> i < t.next && (t.openings[i].Answered? ==> t.openings[i].claim.id == i))
    && (t.current.Some? ==> t.current.value.id < t.next && t.current.value.id !in t.openings)
  }

  lemma StepNumbers(t: Tab, e: Event)
    requires Numbered(t) && Enabled(t, e)
    ensures Numbered(Step(t, e))
  {
  }

  /** An opening comes through while the claim before it is still held. */
  predicate Displaces(t: Tab, e: Event)
  {
    e.Resume? && t.current.Some? && OwnsLock(t, t.current.value)
  }

  /** Lock `game` is this tab's, and nothing in the tab refers to it. */
  predicate LostSight(t: Tab, game: Str)
  {
    game in t.locks && t.locks[game].Mine? && !Accounted(t, game, t.locks[game].id)
  }

  lemma LostStaysLost(t: Tab, e: Event, game: Str)
    requires Numbered(t) && Enabled(t, e) && LostSight(t, game)
    ensures LostSight(Step(t, e), game)
  {
    assert Step(t, e).locks[game] == t.locks[game];
  }

  lemma DisplacedIsLost(t: Tab, e: Event)
    requires Numbered(t) && Enabled(t, e) && Displaces(t, e)
    ensures LostSight(Step(t, e), t.current.value.game)
  {
  }

  lemma AccountedStays(t: Tab, e: Event, game: Str)
    requires Numbered(t) && Enabled(t, e) && !Displaces(t, e)
    requires game in t.locks && t.locks[game].Mine? ==> Accounted(t, game, t.locks[game].id)
    ensures !LostSight(Step(t, e), game)
  {
  }

  /** Once every lock is known of, an event loses sight of one exactly when it displaces a held claim. */
  lemma LosesExactlyWhen(t: Tab, e: Event)
    requires Numbered(t) && Enabled(t, e)
    ensures AllAccounted(Step(t, e)) <==> AllAccounted(t) && !Displaces(t, e)
  {
    var after := Step(t, e);
    if game :| LostSight(t, game) {
      LostStaysLost(t, e, game);
    } else if Displaces(t, e) {
      DisplacedIsLost(t, e);
    } else {
      assert AllAccounted(t) by {
        forall game | game in t.locks && t.locks[game].Mine? ensures Accounted(t, game, t.locks[game].id) {
          assert !LostSight(t, game);
        }
      }
      forall game | game in after.locks && after.locks[game].Mine?
        ensures Accounted(after, game, after.locks[game].id)
      {
        AccountedStays(t, e, game);
        assert !LostSight(after, game);
      }
    }
  }

  ghost predicate DisplacesAt(events: seq<Event>, n: nat)
    requires n < |events|
  {
    Run(events[..n]).Some? && Displaces(Run(events[..n]).value, events[n])
  }

  /** After any run, in any order, every lock held is known of exactly when no opening displaced a held claim. */
  lemma {:induction false} LocksKnownExactlyWhen(events: seq<Event>, t: Tab)
    requires Run(events) == Some(t)
    ensures Numbered(t)
    ensures AllAccounted(t) <==> forall n: nat :: n < |events| ==> !DisplacesAt(events, n)
    decreases |events|
  {
    if events != [] {
      var last := |events| - 1;
      var before := events[..last];
      LocksKnownExactlyWhen(before, Run(before).value);
      forall n: nat | n < last ensures DisplacesAt(before, n) <==> DisplacesAt(events, n) {
        assert before[..n] == events[..n];
      }
      StepNumbers(Run(before).value, events[last]);
      LosesExactlyWhen(Run(before).value, events[last]);
      assert DisplacesAt(events, last) <==> Displaces(Run(before).value, events[last]);
    }
  }

  // --- two runs -------------------------------------------------------------------------------------

  /** While the list is refreshed the game left is still on screen, and another tab can have its lock. */
  lemma LeavingIsUnclaimed(game: Str)
    ensures
      var events := [Open(game), Decide(0), Resume(0, false), StartLeaving, OtherTakes(game)];
      && Run(events).Some? && Run(events).value.screen == Scoring(game)
      && game in Run(events).value.locks && Run(events).value.locks[game] == Other
  {
    var events := [Open(game), Decide(0), Resume(0, false), StartLeaving, OtherTakes(game)];
    Unfold(events, 5);
    Unfold(events, 4);
    Unfold(events, 3);
    Unfold(events, 2);
    Unfold(events, 1);
    assert Run(events[..0]) == Some(FIRST);
    assert events[..5] == events;
  }

  lemma Unfold(events: seq<Event>, n: nat)
    requires 0 < n <= |events|
    ensures
      var before := Run(events[..n - 1]);
      Run(events[..n]) ==
        if before.Some? && Enabled(before.value, events[n - 1]) then Some(Step(before.value, events[n - 1])) else None
  {
    assert events[..n][..n - 1] == events[..n - 1];
  }

  /** Two games opened at once, the second one scored and left, and then the first one opened again. */
  function Overlapping(a: Str, b: Str): seq<Event>
  {
    [Open(a), Open(b), Decide(0), Decide(1), Resume(0, false), Resume(1, false), StartLeaving, Leave,
     Open(a), Decide(2), Resume(2, false)]
  }

  /** After the second opening has come through, nothing refers to the first one's lock. */
  function BothOpened(a: Str, b: Str): Tab
  {
    Tab(Some(Claim(1, b, true)), Scoring(b), map[], 0, map[a := Mine(0), b := Mine(1)], 2)
  }

  lemma StepsOn(events: seq<Event>, n: nat, before: Tab, e: Event, after: Tab)
    requires n < |events| && events[n] == e && Run(events[..n]) == Some(before)
    requires Enabled(before, e) && Step(before, e) == after
    ensures Run(events[..n + 1]) == Some(after)
  {
    Unfold(events, n + 1);
  }

  function Asked(a: Str, b: Str): Tab
  {
    Tab(None, Elsewhere, map[0 := Asking(a), 1 := Asking(b)], 0, map[], 2)
  }

  function OneDecided(a: Str, b: Str): Tab
  {
    Tab(None, Elsewhere, map[0 := Answered(Claim(0, a, true)), 1 := Asking(b)], 0, map[a := Mine(0)], 2)
  }

  function BothDecided(a: Str, b: Str): Tab
  {
    Tab(None, Elsewhere, map[0 := Answered(Claim(0, a, true)), 1 := Answered(Claim(1, b, true))], 0,
        map[a := Mine(0), b := Mine(1)], 2)
  }

  function OneOpened(a: Str, b: Str): Tab
  {
    Tab(Some(Claim(0, a, true)), Scoring(a), map[1 := Answered(Claim(1, b, true))], 0,
        map[a := Mine(0), b := Mine(1)], 2)
  }

  lemma FirstSteps(a: Str, b: Str)
    requires a != b
    ensures Step(Step(FIRST, Open(a)), Open(b)) == Asked(a, b)
    ensures Step(Asked(a, b), Decide(0)) == OneDecided(a, b)
  {
    assert Asked(a, b).openings[0 := Answered(Claim(0, a, true))] == OneDecided(a, b).openings;
  }

  lemma NextSteps(a: Str, b: Str)
    requires a != b
    ensures Step(OneDecided(a, b), Decide(1)) == BothDecided(a, b)
    ensures Step(BothDecided(a, b), Resume(0, false)) == OneOpened(a, b)
    ensures Step(OneOpened(a, b), Resume(1, false)) == BothOpened(a, b)
  {
    assert BothDecided(a, b).openings - {0} == OneOpened(a, b).openings;
    assert OneOpened(a, b).openings - {1} == map[];
  }

  lemma AskingForBoth(a: Str, b: Str)
    requires a != b
    ensures Run(Overlapping(a, b)[..3]) == Some(OneDecided(a, b))
  {
    var events := Overlapping(a, b);
    assert Run(events[..0]) == Some(FIRST);
    FirstSteps(a, b);
    StepsOn(events, 0, FIRST, Open(a), Step(FIRST, Open(a)));
    StepsOn(events, 1, Step(FIRST, Open(a)), Open(b), Asked(a, b));
    StepsOn(events, 2, Asked(a, b), Decide(0), OneDecided(a, b));
  }

  lemma OpeningOne(a: Str, b: Str)
    requires a != b
    ensures Run(Overlapping(a, b)[..5]) == Some(OneOpened(a, b))
  {
    AskingForBoth(a, b);
    NextSteps(a, b);
    StepsOn(Overlapping(a, b), 3, OneDecided(a, b), Decide(1), BothDecided(a, b));
    StepsOn(Overlapping(a, b), 4, BothDecided(a, b), Resume(0, false), OneOpened(a, b));
  }

  lemma OpeningBoth(a: Str, b: Str)
    requires a != b
    ensures Run(Overlapping(a, b)[..6]) == Some(BothOpened(a, b))
  {
    OpeningOne(a, b);
    NextSteps(a, b);
    StepsOn(Overlapping(a, b), 5, OneOpened(a, b), Resume(1, false), BothOpened(a, b));
  }

  lemma LeavingOne(a: Str, b: Str)
    requires a != b
    ensures Run(Overlapping(a, b)[..8]) == Some(Tab(None, Elsewhere, map[], 0, map[a := Mine(0)], 2))
  {
    OpeningBoth(a, b);
    Unfold(Overlapping(a, b), 7);
    Unfold(Overlapping(a, b), 8);
    assert map[a := Mine(0), b := Mine(1)] - {b} == map[a := Mine(0)];
  }

  /** Overlapping openings lose a lock, and the tab is then told that another tab is scoring its own game. */
  lemma OverlapLosesALock(a: Str, b: Str)
    requires a != b
    ensures Run(Overlapping(a, b)[..8]).Some?
    ensures
      var left := Run(Overlapping(a, b)[..8]).value;
      left.current.None? && left.screen.Elsewhere? && a in left.locks && left.locks[a].Mine?
    ensures Run(Overlapping(a, b)).Some? && Run(Overlapping(a, b)).value.screen == Duplicate(a)
  {
    LeavingOne(a, b);
    Unfold(Overlapping(a, b), 9);
    Unfold(Overlapping(a, b), 10);
    Unfold(Overlapping(a, b), 11);
    assert Overlapping(a, b)[..11] == Overlapping(a, b);
  }
}
