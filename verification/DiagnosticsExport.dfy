// The two logs as they go into a diagnostics file (src/app/Diagnostics.ts, `connectionEntries` and
// `errors`), and that the leak scan never finds anything in them.
module DiagnosticsExport {
  import opened Text
  import opened LeakScan
  import Redaction
  import T = Timeline
  import E = ErrorLog

  function KindName(k: T.Kind): string
  {
    match k
    case Connected => "connected"
    case Degraded => "degraded"
    case Offline => "offline"
    case ProgressSent => "progress-sent"
    case ProgressRefused => "progress-refused"
    case SessionReopened => "session-reopened"
    case SessionReopenFailed => "session-reopen-failed"
    case RoomRefused => "room-refused"
    case RoomRepaired => "room-repaired"
    case WriterConflict => "writer-conflict"
    case WriterTaken => "writer-taken"
    case FinalSent => "final-sent"
    case FinalDuplicate => "final-duplicate"
    case FinalPending => "final-pending"
    case FinalRefused => "final-refused"
    case Reassigned => "reassigned"
    case TournamentSwitched => "tournament-switched"
    case RosterSynced => "roster-synced"
    case ControlRequested => "control-requested"
    case ControlRequestFailed => "control-request-failed"
    case ControlRequestRefused => "control-request-refused"
    case ControlRequestCleared => "control-request-cleared"
  }

  function SourceName(s: E.Source): string
  {
    match s
    case Uncaught => "uncaught"
    case UnhandledRejection => "unhandled-rejection"
    case Render => "render"
    case RejectedOperation => "rejected-operation"
  }

  function Optional(key: string, s: Option<Str>): seq<Field>
  {
    if s.None? then [] else [Field(Lit(key), Words(s.value))]
  }

  function LineFields(l: T.Line): seq<Field>
  {
    [Field(Lit("seq"), Scalar), Field(Lit("at"), Scalar), Field(Lit("lastAt"), Scalar), Field(Lit("count"), Scalar),
     Field(Lit("kind"), Words(Lit(KindName(l.kind))))] + Optional("detail", l.detail)
  }

  function ErrorFields(e: E.Entry): seq<Field>
  {
    [Field(Lit("seq"), Scalar), Field(Lit("at"), Scalar), Field(Lit("count"), Scalar),
     Field(Lit("source"), Words(Lit(SourceName(e.problem.source)))), Field(Lit("message"), Words(e.problem.message))]
    + Optional("where", e.problem.place)
  }

  function TimelineJson(lines: seq<T.Line>): Json
  {
    Items(seq(|lines|, i requires 0 <= i < |lines| => Fields(LineFields(lines[i]))))
  }

  function ErrorsJson(entries: seq<E.Entry>): Json
  {
    Items(seq(|entries|, i requires 0 <= i < |entries| => Fields(ErrorFields(entries[i]))))
  }

  lemma ShortIsNoCredential(s: Str)
    requires |s| < Redaction.CREDENTIAL_RUN
    ensures !Redaction.Credential(s)
  {
  }

  lemma NamesAreNoCredentials(k: T.Kind, s: E.Source)
    ensures !Redaction.Credential(Lit(KindName(k))) && !Redaction.Credential(Lit(SourceName(s)))
  {
    ShortIsNoCredential(Lit(KindName(k)));
    ShortIsNoCredential(Lit(SourceName(s)));
  }

  lemma LongerWordIsNotContained(s: Str, w: Str)
    requires |s| < |w|
    ensures !Contains(s, w)
  {
  }

  /** A short key is allowed when it lacks a letter of each of the three short forbidden words. */
  lemma ShortKeyAllowed(key: Str, inSecret: nat, inRoomId: nat)
    requires |key| <= 7 && inSecret < 6 && inRoomId < 6
    requires |key| < 5
      || (107 !in Lower(key) && Lit("secret")[inSecret] !in Lower(key) && Lit("roomid")[inRoomId] !in Lower(key))
    ensures !Forbidden(key)
  {
    var s := Lower(key);
    forall k | 0 <= k < |FORBIDDEN_WORDS| ensures !Contains(s, FORBIDDEN_WORDS[k]) {
      var w := FORBIDDEN_WORDS[k];
      if |s| < |w| {
        LongerWordIsNotContained(s, w);
      } else {
        MissingUnit(s, w, if k == 0 then 2 else if k == 1 then inSecret else inRoomId);
      }
    }
  }

  lemma LineKeysAllowed()
    ensures !Forbidden(Lit("seq")) && !Forbidden(Lit("at")) && !Forbidden(Lit("lastAt"))
    ensures !Forbidden(Lit("count")) && !Forbidden(Lit("kind")) && !Forbidden(Lit("detail"))
  {
    ShortKeyAllowed(Lit("seq"), 0, 0);
    ShortKeyAllowed(Lit("at"), 0, 0);
    ShortKeyAllowed(Lit("lastAt"), 2, 0);
    ShortKeyAllowed(Lit("count"), 0, 0);
    ShortKeyAllowed(Lit("kind"), 0, 0);
    ShortKeyAllowed(Lit("detail"), 0, 0);
  }

  lemma ErrorKeysAllowed()
    ensures !Forbidden(Lit("source")) && !Forbidden(Lit("message")) && !Forbidden(Lit("where"))
  {
    ShortKeyAllowed(Lit("source"), 5, 3);
    ShortKeyAllowed(Lit("message"), 2, 0);
    ShortKeyAllowed(Lit("where"), 0, 1);
  }

  predicate PlainField(f: Field)
  {
    !Forbidden(f.key) && (f.value.Scalar? || (f.value.Words? && !Redaction.Credential(f.value.s)))
  }

  lemma PlainFieldsReportNothing(fields: seq<Field>, path: Str)
    requires forall i :: 0 <= i < |fields| ==> PlainField(fields[i])
    ensures LeaksIn(Fields(fields), path) == []
  {
    forall i | 0 <= i < |fields| ensures LeaksInField(fields[i], path) == [] {
      assert PlainField(fields[i]);
    }
    FieldsReportNothing(fields, path);
  }

  lemma LineReportsNothing(l: T.Line, path: Str)
    requires T.GoodLine(l)
    ensures LeaksIn(Fields(LineFields(l)), path) == []
  {
    LineKeysAllowed();
    NamesAreNoCredentials(l.kind, E.Uncaught);
    PlainFieldsReportNothing(LineFields(l), path);
  }

  predicate SafeProblem(p: E.Problem)
  {
    !Redaction.Credential(p.message) && (p.place.Some? ==> !Redaction.Credential(p.place.value))
  }

  lemma DescribedIsSafe(earlier: Str -> Str, source: E.Source, thrown: Str, place: Option<Str>)
    ensures SafeProblem(E.Described(earlier, source, thrown, place))
  {
    Redaction.RedactedIsNeverACredential(earlier, thrown, 0);
    if place.Some? {
      Redaction.RedactedIsNeverACredential(earlier, place.value, 0);
    }
  }

  lemma ErrorReportsNothing(e: E.Entry, path: Str)
    requires SafeProblem(e.problem)
    ensures LeaksIn(Fields(ErrorFields(e)), path) == []
  {
    LineKeysAllowed();
    ErrorKeysAllowed();
    NamesAreNoCredentials(T.Connected, e.problem.source);
    PlainFieldsReportNothing(ErrorFields(e), path);
  }

  lemma {:induction false} EncodedIsSafe(start: nat, calls: seq<E.Call>)
    requires forall i :: 0 <= i < |calls| ==> SafeProblem(calls[i].problem)
    ensures forall e :: e in E.Encode(start, calls) ==> SafeProblem(e.problem)
    decreases |calls|
  {
    if calls != [] {
      EncodedIsSafe(start, calls[..|calls| - 1]);
    }
  }

  // --- the file tells what was logged ---------------------------------------------------------------

  /** The length of each name, its seventh and its fourth-last character: no two kinds share all three. */
  function Mark(k: T.Kind): (int, char, char)
  {
    match k
    case Connected => (9, 't', 'c')
    case Degraded => (8, 'e', 'a')
    case Offline => (7, 'e', 'l')
    case ProgressSent => (13, 's', 's')
    case ProgressRefused => (16, 's', 'u')
    case SessionReopened => (16, 'n', 'e')
    case SessionReopenFailed => (21, 'n', 'i')
    case RoomRefused => (12, 'e', 'u')
    case RoomRepaired => (13, 'e', 'i')
    case WriterConflict => (15, '-', 'l')
    case WriterTaken => (12, '-', 'a')
    case FinalSent => (10, 's', 's')
    case FinalDuplicate => (15, 'd', 'c')
    case FinalPending => (13, 'p', 'd')
    case FinalRefused => (13, 'r', 'u')
    case Reassigned => (10, 'g', 'g')
    case TournamentSwitched => (19, 'm', 'c')
    case RosterSynced => (13, '-', 'n')
    case ControlRequested => (17, 'l', 's')
    case ControlRequestFailed => (22, 'l', 'i')
    case ControlRequestRefused => (23, 'l', 'u')
    case ControlRequestCleared => (23, 'l', 'a')
  }

  lemma NameHasMark(k: T.Kind)
    ensures
      var n := KindName(k);
      |n| >= 7 && (|n|, n[6], n[|n| - 4]) == Mark(k) && n[6] as int < 0x10000 && n[|n| - 4] as int < 0x10000
  {
  }

  lemma MarksDiffer(a: T.Kind, b: T.Kind)
    requires Mark(a) == Mark(b)
    ensures a == b
  {
  }

  lemma KindNamesDiffer(a: T.Kind, b: T.Kind)
    requires Lit(KindName(a)) == Lit(KindName(b))
    ensures a == b
  {
    NameHasMark(a);
    NameHasMark(b);
    SameMark(KindName(a), KindName(b));
    MarksDiffer(a, b);
  }

  lemma SameMark(m: string, n: string)
    requires Lit(m) == Lit(n) && |m| >= 7 && |n| >= 7
    requires m[6] as int < 0x10000 && m[|m| - 4] as int < 0x10000
    requires n[6] as int < 0x10000 && n[|n| - 4] as int < 0x10000
    ensures |m| == |n| && m[6] == n[6] && m[|m| - 4] == n[|n| - 4]
  {
    assert Lit(m)[6] == Lit(n)[6] && Lit(m)[|m| - 4] == Lit(n)[|n| - 4];
  }

  lemma SourceNamesDiffer(a: E.Source, b: E.Source)
    requires Lit(SourceName(a)) == Lit(SourceName(b))
    ensures a == b
  {
  }

  lemma LineTells(a: T.Line, b: T.Line)
    requires LineFields(a) == LineFields(b)
    ensures a.kind == b.kind && a.detail == b.detail
  {
    var x, y := LineFields(a), LineFields(b);
    assert x[4] == Field(Lit("kind"), Words(Lit(KindName(a.kind)))) && x[4] == y[4];
    KindNamesDiffer(a.kind, b.kind);
    assert |x| == |y|;
    if a.detail.Some? {
      assert x[5].value == Words(a.detail.value) && x[5] == y[5];
    }
  }

  lemma ErrorTells(a: E.Entry, b: E.Entry)
    requires ErrorFields(a) == ErrorFields(b)
    ensures a.problem == b.problem
  {
    var x, y := ErrorFields(a), ErrorFields(b);
    assert x[3] == Field(Lit("source"), Words(Lit(SourceName(a.problem.source)))) && x[3] == y[3];
    assert x[4] == Field(Lit("message"), Words(a.problem.message)) && x[4] == y[4];
    SourceNamesDiffer(a.problem.source, b.problem.source);
    assert |x| == |y|;
    if a.problem.place.Some? {
      assert x[5].value == Words(a.problem.place.value) && x[5] == y[5];
    }
  }

  /** Timelines exported alike have the same kinds and details, line by line. */
  lemma TimelineExportTells(a: seq<T.Line>, b: seq<T.Line>)
    requires TimelineJson(a) == TimelineJson(b)
    ensures |a| == |b| && forall i :: 0 <= i < |a| ==> a[i].kind == b[i].kind && a[i].detail == b[i].detail
  {
    var x, y := TimelineJson(a).items, TimelineJson(b).items;
    assert |x| == |a| && |y| == |b|;
    forall i | 0 <= i < |a| ensures a[i].kind == b[i].kind && a[i].detail == b[i].detail {
      assert x[i] == Fields(LineFields(a[i])) && y[i] == Fields(LineFields(b[i]));
      LineTells(a[i], b[i]);
    }
  }

  /** Errors exported alike are the same problems: the same source, message and place. */
  lemma ErrorExportTells(a: seq<E.Entry>, b: seq<E.Entry>)
    requires ErrorsJson(a) == ErrorsJson(b)
    ensures |a| == |b| && forall i :: 0 <= i < |a| ==> a[i].problem == b[i].problem
  {
    var x, y := ErrorsJson(a).items, ErrorsJson(b).items;
    assert |x| == |a| && |y| == |b|;
    forall i | 0 <= i < |a| ensures a[i].problem == b[i].problem {
      assert x[i] == Fields(ErrorFields(a[i])) && y[i] == Fields(ErrorFields(b[i]));
      ErrorTells(a[i], b[i]);
    }
  }

  /** Whatever was recorded, the scan finds nothing in the exported timeline. */
  lemma TimelineLeaksNothing(earlier: Str -> Str, ops: seq<T.Op>, path: Str)
    requires Redaction.LeavesText(earlier)
    ensures LeaksIn(TimelineJson(T.Apply(earlier, ops).kept), path) == []
  {
    KeptAreGood(earlier, ops);
    LinesLeakNothing(T.Apply(earlier, ops).kept, path);
  }

  lemma KeptAreGood(earlier: Str -> Str, ops: seq<T.Op>)
    requires Redaction.LeavesText(earlier)
    ensures T.AllGood(T.Apply(earlier, ops).kept)
  {
    var log := T.Apply(earlier, ops);
    T.HistoryKeeps(earlier, ops);
    assert forall i :: 0 <= i < |log.kept| ==> log.kept[i] == log.All()[|log.gone| + i];
  }

  lemma LinesLeakNothing(lines: seq<T.Line>, path: Str)
    requires T.AllGood(lines)
    ensures LeaksIn(TimelineJson(lines), path) == []
  {
    var items := TimelineJson(lines).items;
    forall i: nat | i < |items| ensures ItemQuiet(items, 0, path, i) {
      LineReportsNothing(lines[i], ItemPath(path, 0 + i));
    }
    ItemsReportNothing(items, 0, path);
  }

  // The same lines as a person reads them (`timelineLine`).

  const BLANK: Unit := 32
  const TIMES: Unit := 215
  const DASH: Unit := 8212

  /** `clock` and `wording` are the local time and the words for a kind. */
  function Rendered(l: T.Line, clock: int -> Str, wording: T.Kind -> Str): Str
  {
    clock(l.at) + ([BLANK] + ([] + ([BLANK] + wording(l.kind)))) + RepeatText(l.count) + DetailText(l.detail)
  }

  function RepeatText(count: nat): Str
  {
    if count > 1 then [BLANK] + ([] + ([TIMES] + Decimal(count))) else []
  }

  function DetailText(detail: Option<Str>): Str
  {
    if detail.Some? && detail.value != [] then [BLANK] + ([] + ([DASH] + ([] + ([BLANK] + detail.value)))) else []
  }

  /** The time has no letter and the words have no digit. */
  ghost predicate PlainWords(clock: int -> Str, wording: T.Kind -> Str)
  {
    && (forall at, i :: 0 <= i < |clock(at)| ==> !IsLetter(clock(at)[i]))
    && (forall k, i :: 0 <= i < |wording(k)| ==> !IsDigit(wording(k)[i]))
  }

  lemma RepeatIsNoCredential(before: Str, count: nat)
    requires !Redaction.Credential(before)
    ensures !Redaction.Credential(before + RepeatText(count))
  {
    assert !Redaction.Credential(Decimal(count));
    if count > 1 {
      Redaction.JoinedIsNoCredential([], TIMES, Decimal(count));
      Redaction.JoinedIsNoCredential(before, BLANK, [] + ([TIMES] + Decimal(count)));
    } else {
      assert before + [] == before;
    }
  }

  lemma DetailIsNoCredential(before: Str, detail: Option<Str>)
    requires !Redaction.Credential(before) && (detail.Some? ==> !Redaction.Credential(detail.value))
    ensures !Redaction.Credential(before + DetailText(detail))
  {
    if detail.Some? && detail.value != [] {
      var spaced := [] + ([BLANK] + detail.value);
      Redaction.JoinedIsNoCredential([], BLANK, detail.value);
      Redaction.JoinedIsNoCredential([], DASH, spaced);
      Redaction.JoinedIsNoCredential(before, BLANK, [] + ([DASH] + spaced));
    } else {
      assert before + [] == before;
    }
  }

  lemma RenderedIsNoCredential(l: T.Line, clock: int -> Str, wording: T.Kind -> Str)
    requires T.GoodLine(l) && PlainWords(clock, wording)
    ensures !Redaction.Credential(Rendered(l, clock, wording))
  {
    var words := [] + ([BLANK] + wording(l.kind));
    assert !Redaction.Credential(clock(l.at)) && !Redaction.Credential(wording(l.kind));
    Redaction.JoinedIsNoCredential([], BLANK, wording(l.kind));
    Redaction.JoinedIsNoCredential(clock(l.at), BLANK, words);
    RepeatIsNoCredential(clock(l.at) + ([BLANK] + words), l.count);
    DetailIsNoCredential(clock(l.at) + ([BLANK] + words) + RepeatText(l.count), l.detail);
  }

  function RenderedJson(lines: seq<T.Line>, clock: int -> Str, wording: T.Kind -> Str): Json
  {
    Items(seq(|lines|, i requires 0 <= i < |lines| => Words(Rendered(lines[i], clock, wording))))
  }

  /** Nor does it find anything in the lines as they are read. */
  lemma RenderedLeaksNothing(
    earlier: Str -> Str, ops: seq<T.Op>, clock: int -> Str, wording: T.Kind -> Str, path: Str
  )
    requires Redaction.LeavesText(earlier) && PlainWords(clock, wording)
    ensures LeaksIn(RenderedJson(T.Apply(earlier, ops).kept, clock, wording), path) == []
  {
    KeptAreGood(earlier, ops);
    RenderedLinesLeakNothing(T.Apply(earlier, ops).kept, clock, wording, path);
  }

  lemma RenderedLinesLeakNothing(lines: seq<T.Line>, clock: int -> Str, wording: T.Kind -> Str, path: Str)
    requires T.AllGood(lines) && PlainWords(clock, wording)
    ensures LeaksIn(RenderedJson(lines, clock, wording), path) == []
  {
    var items := RenderedJson(lines, clock, wording).items;
    forall i: nat | i < |items| ensures ItemQuiet(items, 0, path, i) {
      RenderedIsNoCredential(lines[i], clock, wording);
    }
    ItemsReportNothing(items, 0, path);
  }

  /** Nor in the exported errors. */
  lemma ErrorsLeakNothing(start: nat, calls: seq<E.Call>, entries: seq<E.Entry>, path: Str)
    requires forall i :: 0 <= i < |calls| ==> SafeProblem(calls[i].problem)
    requires E.IsNewest(entries, E.Encode(start, calls))
    ensures LeaksIn(ErrorsJson(entries), path) == []
  {
    var json := ErrorsJson(entries);
    EncodedIsSafe(start, calls);
    var gone :| E.Encode(start, calls) == gone + entries && E.Fits(gone, entries);
    forall i: nat | i < |json.items| ensures ItemQuiet(json.items, 0, path, i) {
      assert entries[i] in gone + entries;
      ErrorReportsNothing(entries[i], ItemPath(path, 0 + i));
    }
    ItemsReportNothing(json.items, 0, path);
  }
}
