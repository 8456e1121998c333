// The QR scanner's camera lifecycle (src/app/QrScannerDialog.tsx): one effect whose asynchronous set-up,
// timed scans, callback and clean-up can interleave in any order.
//
// A step is what runs without yielding. The effect's variables are the fields of a value rather than of an
// object, because no single call owns them: the set-up, the tick and the clean-up are separate continuations.
module QrScanner {
  import opened Text

  /** How far the set-up has got. `Granted` is a camera the browser has opened and the set-up not yet seen. */
  datatype Setup = Asking | Granted(track: nat) | Playing | Loading | Looping | Over

  datatype Offer = Offer(text: Str, afterStop: bool)

  datatype Scanner = Scanner(
    setup: Setup, stopped: bool, stream: Option<nat>, timer: Option<nat>, refused: set<Str>,
    // The browser's side: timers still to fire, scans not yet answered, tracks ever opened and still open.
    armed: set<nat>, scans: nat, tracks: set<nat>, live: set<nat>, nextTimer: nat,
    // What happened: the payloads offered to the caller, and whether the caller threw.
    offers: seq<Offer>, thrown: bool)

  /** What the caller makes of a payload, and whether it closes the dialog while it is at it. */
  datatype Verdict = Accepts | Refuses | Throws

  datatype Event =
    | Denied
    | Allowed(track: nat)
    | PermissionSeen(hasElement: bool)
    | Played
    | DecoderLoaded(present: bool)
    | Fires(id: nat, hasTarget: bool)
    | Answered(found: Option<Str>, verdict: Verdict, closes: bool)
    | Unmounted

  const REMEMBERED := 32

  const MOUNTED := Scanner(Asking, false, None, None, {}, {}, 0, {}, {}, 0, [], false)

  function Release(s: Scanner): Scanner
  {
    s.(stopped := true,
       armed := if s.timer.Some? then s.armed - {s.timer.value} else s.armed, timer := None,
       live := if s.stream.Some? then s.live - {s.stream.value} else s.live, stream := None)
  }

  function Arm(s: Scanner): Scanner
  {
    s.(timer := Some(s.nextTimer), armed := s.armed + {s.nextTimer}, nextTimer := s.nextTimer + 1)
  }

  /** A payload goes to the caller, which may close the dialog before it answers. */
  function Ask(s: Scanner, text: Str, closes: bool): Scanner
  {
    var room := if |s.refused| >= REMEMBERED then {} else s.refused;
    var asked := s.(refused := room + {text}, offers := s.offers + [Offer(text, s.stopped)]);
    if closes then Release(asked) else asked
  }

  /** The rest of a tick, from the answer of the scan on. */
  function AfterScan(s: Scanner, found: Option<Str>, verdict: Verdict, closes: bool): Scanner
  {
    if s.stopped then s
    else if found.Some? && found.value !in s.refused then
      var asked := Ask(s, found.value, closes);
      if verdict.Throws? then asked.(thrown := true)
      else if asked.stopped then asked
      else if verdict.Accepts? then Release(asked)
      else Arm(asked)
    else Arm(s)
  }

  predicate Enabled(s: Scanner, e: Event)
  {
    match e
    case Denied => s.setup.Asking?
    case Allowed(track) => s.setup.Asking? && track !in s.tracks
    case PermissionSeen(_) => s.setup.Granted?
    case Played => s.setup.Playing?
    case DecoderLoaded(_) => s.setup.Loading?
    case Fires(id, _) => id in s.armed
    case Answered(_, _, _) => s.scans > 0
    case Unmounted => true
  }

  function Step(s: Scanner, e: Event): Scanner
    requires Enabled(s, e)
  {
    match e
    case Denied => s.(setup := Over)
    case Allowed(track) => s.(setup := Granted(track), tracks := s.tracks + {track}, live := s.live + {track})
    case PermissionSeen(hasElement) =>
      if s.stopped then s.(setup := Over, live := s.live - {s.setup.track})
      else s.(setup := if hasElement then Playing else Loading, stream := Some(s.setup.track))
    case Played => s.(setup := if s.stopped then Over else Loading)
    case DecoderLoaded(present) =>
      if s.stopped then s.(setup := Over)
      else if !present then Release(s).(setup := Over)
      else Arm(s.(setup := Looping))
    case Fires(id, hasTarget) =>
      var fired := s.(armed := s.armed - {id});
      if s.stopped then fired
      else if !hasTarget then AfterScan(fired, None, Refuses, false)
      else fired.(scans := s.scans + 1)
    case Answered(found, verdict, closes) => AfterScan(s.(scans := s.scans - 1), found, verdict, closes)
    case Unmounted => Release(s)
  }

  /** Where a sequence of events leads, if each could happen when it did. */
  function Run(events: seq<Event>): Option<Scanner>
  {
    if events == [] then Some(MOUNTED)
    else
      var before := Run(events[..|events| - 1]);
      if before.Some? && Enabled(before.value, events[|events| - 1])
      then Some(Step(before.value, events[|events| - 1]))
      else None
  }

  // --- the invariant --------------------------------------------------------------------------------

  function Held(s: Scanner): set<nat>
  {
    (if s.stream.Some? then {s.stream.value} else {}) + (if s.setup.Granted? then {s.setup.track} else {})
  }

  ghost predicate CameraOk(s: Scanner)
  {
    && s.live == Held(s)
    && s.live <= s.tracks
    && (s.stopped || s.setup.Asking? || s.setup.Granted? || s.setup.Over? ==> s.stream.None?)
  }

  /** Nothing scheduled, one timer, or one scan. */
  predicate AtMostOne(s: Scanner)
  {
    && s.scans <= 1
    && (s.armed == {} || (s.scans == 0 && s.timer.Some? && s.armed == {s.timer.value}))
  }

  ghost predicate LoopOk(s: Scanner)
  {
    && AtMostOne(s)
    && (s.stopped ==> s.armed == {})
    && (!s.setup.Looping? ==> s.armed == {} && s.scans == 0 && s.offers == [] && !s.thrown)
    && (s.setup.Looping? && !s.stopped ==> (s.thrown <==> s.armed == {} && s.scans == 0))
    && (s.thrown ==> s.armed == {} && s.scans == 0)
  }

  /** Where the offers still remembered begin, after n of them: the memory is dropped whole when it is full. */
  function Remembered(n: nat): (k: nat)
    ensures k <= n && n - k <= REMEMBERED && (n > 0 ==> k < n)
  {
    if n == 0 then 0
    else if n - 1 - Remembered(n - 1) >= REMEMBERED then n - 1
    else Remembered(n - 1)
  }

  lemma {:induction false} RememberedInBlocks(n: nat)
    requires n > 0
    ensures Remembered(n) == (n - 1) / 32 * 32
  {
    if n > 1 {
      RememberedInBlocks(n - 1);
      NextBlock(n - 2);
    }
  }

  lemma NextBlock(m: nat)
    ensures (m + 1) / 32 * 32 == if m + 1 - m / 32 * 32 >= 32 then m + 1 else m / 32 * 32
  {
    var q, r := m / 32, m % 32;
    assert m == 32 * q + r;
    assert (m + 1) / 32 == if r == 31 then q + 1 else q;
  }

  function TextsFrom(offers: seq<Offer>, k: nat): set<Str>
  {
    set i | k <= i < |offers| :: offers[i].text
  }

  /** Each offer differs from all that were remembered when it was made. */
  ghost predicate NewWhenOffered(offers: seq<Offer>)
  {
    forall i, j :: 0 <= i < j < |offers| && Remembered(j) <= i ==> Differ(offers, i, j)
  }

  predicate Differ(offers: seq<Offer>, i: nat, j: nat)
    requires i < |offers| && j < |offers|
  {
    offers[i].text != offers[j].text
  }

  ghost predicate OffersOk(s: Scanner) { RemembersOk(s.offers, s.refused) }

  ghost predicate RemembersOk(offers: seq<Offer>, refused: set<Str>)
  {
    && refused == TextsFrom(offers, Remembered(|offers|))
    && |refused| == |offers| - Remembered(|offers|)
    && NewWhenOffered(offers)
    && forall i :: 0 <= i < |offers| ==> !offers[i].afterStop
  }

  ghost predicate Inv(s: Scanner) { CameraOk(s) && LoopOk(s) && OffersOk(s) }

  lemma TextsOfOneMore(offers: seq<Offer>, o: Offer, k: nat)
    requires k <= |offers|
    ensures TextsFrom(offers + [o], k) == TextsFrom(offers, k) + {o.text}
  {
    var more := offers + [o];
    assert forall i :: k <= i < |offers| ==> more[i] == offers[i];
    assert more[|offers|] == o;
    forall t | t in TextsFrom(offers, k) ensures t in TextsFrom(more, k) {
      var i :| k <= i < |offers| && offers[i].text == t;
      assert more[i].text == t;
    }
    assert o.text in TextsFrom(more, k);
  }

  lemma OneMoreOffer(offers: seq<Offer>, o: Offer)
    requires NewWhenOffered(offers) && o.text !in TextsFrom(offers, Remembered(|offers|))
    ensures NewWhenOffered(offers + [o])
  {
    var n, more := |offers|, offers + [o];
    forall i, j | 0 <= i < j < |more| && Remembered(j) <= i ensures Differ(more, i, j) {
      if j == n {
        assert offers[i].text in TextsFrom(offers, Remembered(n));
      } else {
        assert Differ(offers, i, j);
      }
    }
  }

  /** What is remembered after one more offer: that one alone where the memory was full. */
  lemma RememberedTexts(offers: seq<Offer>, o: Offer, refused: set<Str>)
    requires refused == TextsFrom(offers, Remembered(|offers|)) && |refused| == |offers| - Remembered(|offers|)
    requires o.text !in refused
    ensures
      var after := (if |refused| >= REMEMBERED then {} else refused) + {o.text};
      after == TextsFrom(offers + [o], Remembered(|offers| + 1)) && |after| == |offers| + 1 - Remembered(|offers| + 1)
  {
    var n := |offers|;
    TextsOfOneMore(offers, o, Remembered(n));
    TextsOfOneMore(offers, o, n);
    assert TextsFrom(offers, n) == {};
  }

  lemma AskShape(s: Scanner, text: Str, closes: bool)
    ensures
      var after := Ask(s, text, closes);
      && after.offers == s.offers + [Offer(text, s.stopped)]
      && after.refused == (if |s.refused| >= REMEMBERED then {} else s.refused) + {text}
  {
  }

  lemma NoneAfterStop(offers: seq<Offer>, o: Offer)
    requires (forall i :: 0 <= i < |offers| ==> !offers[i].afterStop) && !o.afterStop
    ensures forall i :: 0 <= i < |offers + [o]| ==> !(offers + [o])[i].afterStop
  {
  }

  lemma AskKeepsOffers(s: Scanner, text: Str, closes: bool)
    requires OffersOk(s) && !s.stopped && text !in s.refused
    ensures OffersOk(Ask(s, text, closes))
  {
    AskShape(s, text, closes);
    RemembersOneMore(s.offers, Offer(text, s.stopped), s.refused);
  }

  lemma RemembersOneMore(offers: seq<Offer>, o: Offer, refused: set<Str>)
    requires RemembersOk(offers, refused) && !o.afterStop && o.text !in refused
    ensures RemembersOk(offers + [o], (if |refused| >= REMEMBERED then {} else refused) + {o.text})
  {
    OneMoreOffer(offers, o);
    RememberedTexts(offers, o, refused);
    NoneAfterStop(offers, o);
  }

  /** The one event that asks the caller anything. */
  predicate Asks(s: Scanner, e: Event)
  {
    e.Answered? && !s.stopped && e.found.Some? && e.found.value !in s.refused
  }

  lemma AfterScanOffers(s: Scanner, found: Option<Str>, verdict: Verdict, closes: bool)
    ensures
      var asked := if !s.stopped && found.Some? && found.value !in s.refused then Ask(s, found.value, closes) else s;
      var after := AfterScan(s, found, verdict, closes);
      after.offers == asked.offers && after.refused == asked.refused
  {
  }

  lemma StepOffers(s: Scanner, e: Event)
    requires Enabled(s, e)
    ensures
      var asked := if Asks(s, e) then Ask(s, e.found.value, e.closes) else s;
      Step(s, e).offers == asked.offers && Step(s, e).refused == asked.refused
  {
    if e.Answered? {
      AnswerOffers(s, e);
    } else if e.Fires? {
      AfterScanOffers(s.(armed := s.armed - {e.id}), None, Refuses, false);
    }
  }

  lemma AnswerOffers(s: Scanner, e: Event)
    requires Enabled(s, e) && e.Answered?
    ensures
      var asked := if Asks(s, e) then Ask(s, e.found.value, e.closes) else s;
      Step(s, e).offers == asked.offers && Step(s, e).refused == asked.refused
  {
    AfterScanOffers(s.(scans := s.scans - 1), e.found, e.verdict, e.closes);
  }

  lemma StepKeepsOffers(s: Scanner, e: Event)
    requires OffersOk(s) && Enabled(s, e)
    ensures OffersOk(Step(s, e))
  {
    StepOffers(s, e);
    if Asks(s, e) {
      AskKeepsOffers(s, e.found.value, e.closes);
      SameOffers(Ask(s, e.found.value, e.closes), Step(s, e));
    } else {
      SameOffers(s, Step(s, e));
    }
  }

  lemma SameOffers(s: Scanner, t: Scanner)
    requires OffersOk(s) && t.offers == s.offers && t.refused == s.refused
    ensures OffersOk(t)
  {
  }

  lemma ReleaseKeepsCamera(s: Scanner)
    requires CameraOk(s)
    ensures CameraOk(Release(s))
  {
    if s.stream.Some? {
      assert Held(Release(s)) == Held(s) - {s.stream.value};
    }
  }

  lemma AfterScanKeepsCamera(s: Scanner, found: Option<Str>, verdict: Verdict, closes: bool)
    requires CameraOk(s)
    ensures CameraOk(AfterScan(s, found, verdict, closes))
  {
    if !s.stopped && found.Some? && found.value !in s.refused {
      ReleaseKeepsCamera(Ask(s, found.value, false));
      var asked := Ask(s, found.value, closes);
      assert CameraOk(asked);
      ReleaseKeepsCamera(asked);
    }
  }

  lemma PermissionKeepsCamera(s: Scanner, e: Event)
    requires CameraOk(s) && Enabled(s, e) && (e.Allowed? || e.PermissionSeen?)
    ensures CameraOk(Step(s, e))
  {
    var after := Step(s, e);
    if e.Allowed? {
      assert Held(after) == Held(s) + {e.track};
    } else if s.stopped {
      assert Held(after) == Held(s) - {s.setup.track};
    } else {
      assert Held(after) == Held(s);
    }
  }

  lemma DecoderKeepsCamera(s: Scanner, e: Event)
    requires CameraOk(s) && Enabled(s, e) && (e.Denied? || e.Played? || e.DecoderLoaded?)
    ensures CameraOk(Step(s, e))
  {
    ReleaseKeepsCamera(s);
    assert e.DecoderLoaded? || Held(Step(s, e)) == Held(s);
  }

  lemma TickKeepsCamera(s: Scanner, e: Event)
    requires CameraOk(s) && Enabled(s, e) && (e.Fires? || e.Answered?)
    ensures CameraOk(Step(s, e))
  {
    if e.Fires? {
      var fired := s.(armed := s.armed - {e.id});
      SameCamera(s, fired);
      SameCamera(fired, fired.(scans := fired.scans + 1));
      AfterScanKeepsCamera(fired, None, Refuses, false);
    } else {
      var answered := s.(scans := s.scans - 1);
      SameCamera(s, answered);
      AfterScanKeepsCamera(answered, e.found, e.verdict, e.closes);
    }
  }

  lemma SameCamera(s: Scanner, t: Scanner)
    requires CameraOk(s) && t.live == s.live && t.tracks == s.tracks && t.stream == s.stream
    requires t.setup == s.setup && t.stopped == s.stopped
    ensures CameraOk(t)
  {
    assert Held(t) == Held(s);
  }

  lemma StepKeepsCamera(s: Scanner, e: Event)
    requires CameraOk(s) && Enabled(s, e)
    ensures CameraOk(Step(s, e))
  {
    if e.Allowed? || e.PermissionSeen? {
      PermissionKeepsCamera(s, e);
    } else if e.Fires? || e.Answered? {
      TickKeepsCamera(s, e);
    } else if e.Unmounted? {
      ReleaseKeepsCamera(s);
    } else {
      DecoderKeepsCamera(s, e);
    }
  }

  /** Between a timer or a scan and the next: nothing is scheduled and nobody is being asked. */
  ghost predicate Between(s: Scanner)
  {
    s.setup.Looping? && s.armed == {} && s.scans == 0 && !s.thrown
  }

  lemma ReleaseKeepsLoop(s: Scanner)
    requires LoopOk(s)
    ensures LoopOk(Release(s))
  {
    if s.timer.Some? {
      assert s.armed - {s.timer.value} == {};
    }
  }

  lemma ArmFromBetween(s: Scanner)
    requires Between(s) && !s.stopped
    ensures LoopOk(Arm(s))
  {
    assert Arm(s).armed == {s.nextTimer};
  }

  lemma ReleaseFromBetween(s: Scanner)
    requires Between(s)
    ensures Between(Release(s)) && LoopOk(Release(s))
  {
    assert Release(s).armed == {};
  }

  lemma AfterScanKeepsLoop(s: Scanner, found: Option<Str>, verdict: Verdict, closes: bool)
    requires Between(s)
    ensures LoopOk(AfterScan(s, found, verdict, closes))
  {
    if !s.stopped {
      if found.Some? && found.value !in s.refused {
        ReleaseFromBetween(Ask(s, found.value, false));
        var asked := Ask(s, found.value, closes);
        assert Between(asked);
        ReleaseFromBetween(asked);
        if !asked.stopped {
          ArmFromBetween(asked);
        }
      } else {
        ArmFromBetween(s);
      }
    }
  }

  lemma SetupKeepsLoop(s: Scanner, e: Event)
    requires LoopOk(s) && Enabled(s, e)
    requires e.Denied? || e.Allowed? || e.PermissionSeen? || e.Played? || e.DecoderLoaded?
    ensures LoopOk(Step(s, e))
  {
    if e.DecoderLoaded? && !s.stopped {
      ReleaseKeepsLoop(s);
      ArmFromBetween(s.(setup := Looping));
    }
  }

  lemma TickKeepsLoop(s: Scanner, e: Event)
    requires LoopOk(s) && Enabled(s, e) && (e.Fires? || e.Answered?)
    ensures LoopOk(Step(s, e))
  {
    if e.Fires? {
      var fired := s.(armed := s.armed - {e.id});
      assert fired.armed == {};
      AfterScanKeepsLoop(fired, None, Refuses, false);
    } else {
      AfterScanKeepsLoop(s.(scans := s.scans - 1), e.found, e.verdict, e.closes);
    }
  }

  lemma StepKeepsLoop(s: Scanner, e: Event)
    requires LoopOk(s) && Enabled(s, e)
    ensures LoopOk(Step(s, e))
  {
    match e {
      case Fires(_, _) => TickKeepsLoop(s, e);
      case Answered(_, _, _) => TickKeepsLoop(s, e);
      case Unmounted => ReleaseKeepsLoop(s);
      case _ => SetupKeepsLoop(s, e);
    }
  }

  lemma {:induction false} RunKeeps(events: seq<Event>, s: Scanner)
    requires Run(events) == Some(s)
    ensures Inv(s)
    decreases |events|
  {
    if events == [] {
      assert TextsFrom([], 0) == {};
    } else {
      var n := |events| - 1;
      var before := Run(events[..n]).value;
      RunKeeps(events[..n], before);
      StepKeepsOffers(before, events[n]);
      StepKeepsCamera(before, events[n]);
      StepKeepsLoop(before, events[n]);
    }
  }

  // --- the guarantees -------------------------------------------------------------------------------

  /** Once stopped, every track ever opened is stopped, unless a camera was granted and not yet seen. */
  lemma StoppedReleasesTheCamera(events: seq<Event>, s: Scanner)
    requires Run(events) == Some(s) && s.stopped && !s.setup.Granted?
    ensures s.live == {}
  {
    RunKeeps(events, s);
  }

  /** And a camera granted after the dialog closed is stopped by the very next step of the set-up. */
  lemma LateCameraIsStopped(events: seq<Event>, s: Scanner, hasElement: bool)
    requires Run(events) == Some(s) && s.stopped && s.setup.Granted?
    ensures Step(s, PermissionSeen(hasElement)).live == {}
  {
    RunKeeps(events, s);
  }

  lemma OneTimerOrScan(events: seq<Event>, s: Scanner)
    requires Run(events) == Some(s)
    ensures |s.armed| + s.scans <= 1
  {
    RunKeeps(events, s);
  }

  /**
   * A looping scanner that has not been stopped goes on scanning exactly when its caller has never thrown;
   * after a throw it holds the camera and never looks again.
   */
  lemma GoesOnExactlyWhen(events: seq<Event>, s: Scanner)
    requires Run(events) == Some(s) && s.setup.Looping? && !s.stopped
    ensures |s.armed| + s.scans == 1 <==> !s.thrown
    ensures s.live != {}
  {
    RunKeeps(events, s);
    LoopingHasStream(events, s);
  }

  predicate HasStream(s: Scanner)
  {
    !s.stopped && (s.setup.Playing? || s.setup.Loading? || s.setup.Looping?) ==> s.stream.Some?
  }

  lemma AfterScanKeepsStream(s: Scanner, found: Option<Str>, verdict: Verdict, closes: bool)
    requires HasStream(s)
    ensures HasStream(AfterScan(s, found, verdict, closes))
  {
  }

  lemma StepKeepsStream(s: Scanner, e: Event)
    requires HasStream(s) && Enabled(s, e)
    ensures HasStream(Step(s, e))
  {
    if e.Fires? || e.Answered? {
      TickKeepsStream(s, e);
    } else {
      SetupKeepsStream(s, e);
    }
  }

  lemma TickKeepsStream(s: Scanner, e: Event)
    requires HasStream(s) && Enabled(s, e) && (e.Fires? || e.Answered?)
    ensures HasStream(Step(s, e))
  {
    if e.Fires? {
      AfterScanKeepsStream(s.(armed := s.armed - {e.id}), None, Refuses, false);
    } else {
      AfterScanKeepsStream(s.(scans := s.scans - 1), e.found, e.verdict, e.closes);
    }
  }

  lemma SetupKeepsStream(s: Scanner, e: Event)
    requires HasStream(s) && Enabled(s, e) && !e.Fires? && !e.Answered?
    ensures HasStream(Step(s, e))
  {
  }

  lemma {:induction false} LoopingHasStream(events: seq<Event>, s: Scanner)
    requires Run(events) == Some(s)
    ensures HasStream(s)
    decreases |events|
  {
    if events != [] {
      var n := |events| - 1;
      LoopingHasStream(events[..n], Run(events[..n]).value);
      StepKeepsStream(Run(events[..n]).value, events[n]);
    }
  }

  /** Two offers so close that the later one was checked against the earlier. */
  predicate Close(i: nat, j: nat) { i < j && (i + 1 == j || i / 32 == j / 32) }

  lemma CloseIsChecked(i: nat, j: nat)
    requires Close(i, j)
    ensures Remembered(j) <= i
  {
    RememberedInBlocks(j);
  }

  /** Of the offers made, none came after the scanner stopped; neighbours, and all in one block of 32, differ. */
  lemma OffersAreFresh(events: seq<Event>, s: Scanner)
    requires Run(events) == Some(s)
    ensures |s.refused| <= REMEMBERED
    ensures forall i :: 0 <= i < |s.offers| ==> !s.offers[i].afterStop
    ensures forall i: nat, j: nat :: Close(i, j) && j < |s.offers| ==> s.offers[i].text != s.offers[j].text
  {
    RunKeeps(events, s);
    forall i: nat, j: nat | Close(i, j) && j < |s.offers| ensures s.offers[i].text != s.offers[j].text {
      CloseIsChecked(i, j);
      assert Differ(s.offers, i, j);
    }
  }

  /** Stopping is final: whatever happens afterwards, nothing is offered, opened tracks stay closed, no timer runs. */
  lemma StopIsFinal(events: seq<Event>, s: Scanner, e: Event)
    requires Run(events) == Some(s) && s.stopped && Enabled(s, e)
    ensures
      var after := Step(s, e);
      && after.stopped && after.offers == s.offers && after.armed == {}
      && after.live <= s.live + if e.Allowed? then {e.track} else {}
  {
    RunKeeps(events, s);
  }

  // --- what each step does --------------------------------------------------------------------------

  /**
   * The set-up, one await after another: a refused camera ends it, a granted one that nobody waits for is closed,
   * the preview is only played where there is one, and the scans begin exactly when the decoder is there and the
   * scanner has not been stopped. Without a decoder the camera is given back.
   */
  lemma SetupGoesOn(events: seq<Event>, s: Scanner, e: Event)
    requires Run(events) == Some(s) && Enabled(s, e)
    ensures
      var after := Step(s, e);
      match e
      case Denied => after.setup.Over? && after.live == {}
      case Allowed(track) => after.setup == Granted(track) && after.live == {track}
      case PermissionSeen(hasElement) =>
        after.setup == (if s.stopped then Over else if hasElement then Playing else Loading)
        && after.live == (if s.stopped then {} else {s.setup.track})
      case Played => after.setup == (if s.stopped then Over else Loading) && after.live == s.live
      case DecoderLoaded(present) =>
        && (after.setup.Looping? <==> present && !s.stopped) && (after.setup.Looping? || after.setup.Over?)
        && (after.armed != {} <==> present && !s.stopped)
        && (after.stopped <==> s.stopped || !present) && (after.stopped <==> after.live == {})
      case _ => true
  {
    RunKeeps(events, s);
    LoopingHasStream(events, s);
    if e.DecoderLoaded? && e.present && !s.stopped {
      assert Step(s, e).timer.value in Step(s, e).armed;
    }
  }

  /** Closing the dialog stops everything but a camera that the set-up has not seen yet. */
  lemma ClosingStops(events: seq<Event>, s: Scanner)
    requires Run(events) == Some(s)
    ensures
      var after := Step(s, Unmounted);
      && after.stopped && after.armed == {} && after.setup == s.setup && after.scans == s.scans
      && after.live == if s.setup.Granted? then {s.setup.track} else {}
  {
    RunKeeps(events, s);
    StepKeepsCamera(s, Unmounted);
    StepKeepsLoop(s, Unmounted);
  }

  /** A timer that fires scans what the preview shows, or looks again later where there is no preview. */
  lemma TimerScans(events: seq<Event>, s: Scanner, id: nat, hasTarget: bool)
    requires Run(events) == Some(s) && Enabled(s, Fires(id, hasTarget))
    ensures
      var after := Step(s, Fires(id, hasTarget));
      && after.scans == (if hasTarget then 1 else 0) && (after.armed == {} <==> hasTarget)
      && after.offers == s.offers && after.live == s.live
  {
    RunKeeps(events, s);
    StepKeepsLoop(s, Fires(id, hasTarget));
    if !hasTarget {
      assert Step(s, Fires(id, hasTarget)).timer.value in Step(s, Fires(id, hasTarget)).armed;
    }
  }

  // --- what an answer does --------------------------------------------------------------------------

  /** The answer gives the scanner a payload it has not been refused lately. */
  predicate IsOffer(s: Scanner, e: Event)
  {
    e.Answered? && !s.stopped && e.found.Some? && e.found.value !in s.refused
  }

  /**
   * A new payload is offered to the caller once and remembered. An accepted one stops the scanner and the camera; a
   * refused one lets it go on; a caller that throws leaves it holding the camera with nothing to come; and one that
   * closes the dialog has stopped it.
   */
  lemma OfferDecides(events: seq<Event>, s: Scanner, e: Event)
    requires Run(events) == Some(s) && Enabled(s, e) && IsOffer(s, e)
    ensures
      var after := Step(s, e);
      && after.offers == s.offers + [Offer(e.found.value, false)] && e.found.value in after.refused
      && (after.stopped <==> e.closes || e.verdict.Accepts?)
      && (after.stopped <==> after.live == {})
      && (after.thrown <==> e.verdict.Throws?)
      && (after.armed != {} <==> !e.closes && e.verdict.Refuses?)
  {
    RunKeeps(events, s);
    LoopingHasStream(events, s);
    AskShape(s.(scans := s.scans - 1), e.found.value, e.closes);
    OfferedLive(s, e);
  }

  lemma OfferedLive(s: Scanner, e: Event)
    requires CameraOk(s) && LoopOk(s) && HasStream(s) && Enabled(s, e) && IsOffer(s, e)
    ensures
      var after := Step(s, e);
      && (e.closes || e.verdict.Accepts? ==> after.live == {})
      && (!e.closes && !e.verdict.Accepts? ==> after.live == s.live) && s.live != {}
  {
    assert s.setup.Looping?;
    assert s.live == {s.stream.value};
  }

  /** Nothing found, or something refused before: a scanner not stopped looks again, and offers nothing. */
  lemma OtherAnswersGoOn(events: seq<Event>, s: Scanner, e: Event)
    requires Run(events) == Some(s) && Enabled(s, e) && e.Answered? && !s.stopped && !IsOffer(s, e)
    ensures
      var after := Step(s, e);
      after.offers == s.offers && !after.stopped && after.live == s.live && after.armed != {}
  {
    RunKeeps(events, s);
    assert Step(s, e).timer.value in Step(s, e).armed;
  }
}
