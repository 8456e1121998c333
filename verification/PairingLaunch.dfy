// Pairing links (src/app/PairingLaunch.ts): the fragment `#qbtcp-pair?v=1&server=..&code=..&room=..`, how it
// is read, and how what was read is handed over once.
//
// `normalizeBaseUrl` is a function about which nothing is assumed: None is an address it refuses.
module PairingLaunch {
  import opened Text
  import opened PercentCoding
  import opened PairingParameters

  const HASH: Unit := 35
  const QUESTION: Unit := 63
  const NAMESPACE: Str := Lit("qbtcp-pair")
  // `1`, and the keys `v`, `server`, `code` and `room`, unit by unit.
  const VERSION: Str := [49]
  const V: Str := [118]
  const SERVER: Str := [115, 101, 114, 118, 101, 114]
  const CODE: Str := [99, 111, 100, 101]
  const ROOM: Str := [114, 111, 111, 109]

  const MAX_LAUNCH := 2048
  const MAX_SERVER := 512
  const MAX_CODE := 64
  const MAX_ROOM := 128

  datatype Intent = Intent(server: Str, code: Str, room: Option<Str>)

  datatype Result = NoLaunch | Launch(intent: Intent) | Invalid | Unsupported

  predicate Unprintable(s: Str) { exists i :: 0 <= i < |s| && (s[i] <= 31 || s[i] == 127) }

  predicate HasScheme(s: Str)
  {
    StartsWith(Lower(s), Lit("http://")) || StartsWith(Lower(s), Lit("https://"))
  }

  function Get(found: map<Str, Str>, key: Str): Str { if key in found then found[key] else [] }

  predicate GoodServer(server: Str)
  {
    server != [] && |server| <= MAX_SERVER && !Unprintable(server) && HasScheme(server)
  }

  predicate GoodCode(code: Str)
  {
    code != [] && |code| <= MAX_CODE && !Unprintable(code) && NoSpaces(code)
  }

  predicate GoodRoom(room: Str)
  {
    Trim(room) != [] && |room| <= MAX_ROOM && !Unprintable(room)
  }

  function FromParameters(found: map<Str, Str>, normalize: Str -> Option<Str>): Result
  {
    if V !in found then Invalid
    else if found[V] != VERSION then Unsupported
    else if !GoodServer(Get(found, SERVER)) || normalize(Get(found, SERVER)).None? then Invalid
    else if !GoodCode(Trim(Get(found, CODE))) then Invalid
    else if ROOM in found && !GoodRoom(found[ROOM]) then Invalid
    else
      Launch(Intent(
        normalize(Get(found, SERVER)).value, Trim(Get(found, CODE)),
        if ROOM in found then Some(Trim(found[ROOM])) else None))
  }

  function Body(fragment: Str): Str
  {
    if StartsWith(fragment, [HASH]) then fragment[1..] else fragment
  }

  /** The fragment announces itself as a pairing link. */
  predicate Announced(body: Str) { body == NAMESPACE || StartsWith(body, NAMESPACE + [QUESTION]) }

  function Query(body: Str): Str { if |body| > |NAMESPACE| then body[|NAMESPACE| + 1..] else [] }

  function Parse(fragment: Str, normalize: Str -> Option<Str>): Result
  {
    if !Announced(Body(fragment)) then NoLaunch
    else if |fragment| > MAX_LAUNCH then Invalid
    else
      var found := Parameters(Query(Body(fragment)));
      if found.None? then Invalid else FromParameters(found.value, normalize)
  }

  /** A scanned text: everything before the first `#` is discarded. */
  function ParseUrl(text: Str, normalize: Str -> Option<Str>): Result
  {
    var at := IndexOf(text, HASH);
    if at.None? then NoLaunch else Parse(text[at.value..], normalize)
  }

  // --- order, unknown parameters, repeated keys -----------------------------------------------------

  /** The fragment of some pieces, as `location.hash` gives it. */
  function Fragment(pieces: seq<Str>): Str
    requires pieces != []
  {
    [HASH] + (NAMESPACE + [QUESTION] + Join(pieces))
  }

  lemma FragmentIsAnnounced(pieces: seq<Str>)
    requires pieces != []
    ensures Body(Fragment(pieces)) == NAMESPACE + [QUESTION] + Join(pieces)
    ensures Announced(Body(Fragment(pieces))) && Query(Body(Fragment(pieces))) == Join(pieces)
  {
    assert Fragment(pieces)[1..] == NAMESPACE + [QUESTION] + Join(pieces);
    assert (NAMESPACE + [QUESTION] + Join(pieces))[|NAMESPACE| + 1..] == Join(pieces);
  }

  /** Every announced fragment with a query is the fragment of its pieces. */
  lemma EveryQueryHasPieces(fragment: Str)
    requires Announced(Body(fragment)) && Body(fragment) != NAMESPACE && StartsWith(fragment, [HASH])
    ensures Pieces(Split(Query(Body(fragment)))) && Fragment(Split(Query(Body(fragment)))) == fragment
  {
    var body := Body(fragment);
    JoinUndoesSplit(Query(body));
    assert body == NAMESPACE + [QUESTION] + body[|NAMESPACE| + 1..];
    assert fragment == [HASH] + body;
  }

  function ParsePieces(pieces: seq<Str>, normalize: Str -> Option<Str>): Result
  {
    var found := Collect(ReadPair, pieces);
    if found.None? then Invalid else FromParameters(found.value, normalize)
  }

  lemma ParsesPieces(pieces: seq<Str>, normalize: Str -> Option<Str>)
    requires Pieces(pieces) && |Fragment(pieces)| <= MAX_LAUNCH
    ensures Parse(Fragment(pieces), normalize) == ParsePieces(pieces, normalize)
  {
    FragmentIsAnnounced(pieces);
    SplitUndoesJoin(pieces);
    if Join(pieces) == [] {
      assert pieces == [[]] by {
        assert Split([]) == [[]];
      }
      assert ReadPair([]).None?;
      CollectsExactlyWhen(ReadPair, pieces);
    }
  }

  function TotalLength(pieces: seq<Str>): nat
  {
    if pieces == [] then 0 else |pieces[0]| + TotalLength(pieces[1..])
  }

  lemma {:induction false} JoinLength(pieces: seq<Str>)
    requires pieces != []
    ensures |Join(pieces)| == TotalLength(pieces) + |pieces| - 1
    decreases |pieces|
  {
    if |pieces| > 1 {
      JoinLength(pieces[1..]);
    } else {
      assert pieces[1..] == [];
    }
  }

  lemma {:induction false} TotalLengthSplits(a: seq<Str>, b: seq<Str>)
    ensures TotalLength(a + b) == TotalLength(a) + TotalLength(b)
    decreases |a|
  {
    if a == [] {
      assert a + b == b;
    } else {
      TotalLengthSplits(a[1..], b);
      assert (a + b)[1..] == a[1..] + b;
    }
  }

  lemma WithoutOne(a: seq<Str>, b: seq<Str>, i: nat)
    requires SamePieces(a, b) && a != [] && i < |b| && b[i] == a[0]
    ensures SamePieces(a[1..], b[..i] + b[i + 1..])
  {
    assert a == [a[0]] + a[1..];
    assert b == b[..i] + ([b[i]] + b[i + 1..]);
    assert multiset(b) == multiset(b[..i]) + (multiset{b[i]} + multiset(b[i + 1..]));
    assert multiset(b[..i] + b[i + 1..]) == multiset(b) - multiset{b[i]};
    assert multiset(a[1..]) == multiset(a) - multiset{a[0]};
  }

  lemma {:induction false} SameLength(a: seq<Str>, b: seq<Str>)
    requires SamePieces(a, b)
    ensures |a| == |b| && TotalLength(a) == TotalLength(b)
    decreases |a|
  {
    assert |multiset(a)| == |multiset(b)|;
    if a != [] {
      assert a[0] in multiset(b);
      var i :| 0 <= i < |b| && b[i] == a[0];
      var front, back := b[..i], b[i + 1..];
      assert b == front + ([b[i]] + back);
      WithoutOne(a, b, i);
      SameLength(a[1..], front + back);
      TotalLengthSplits(front, back);
      TotalLengthSplits(front, [b[i]] + back);
      assert ([b[i]] + back)[1..] == back;
    }
  }

  lemma SamePiecesPieces(a: seq<Str>, b: seq<Str>)
    requires SamePieces(a, b) && Pieces(a)
    ensures Pieces(b)
  {
    SameLength(a, b);
    forall i | 0 <= i < |b| ensures AMP !in b[i] {
      assert b[i] in multiset(a);
    }
  }

  lemma PiecesInAnyOrder(a: seq<Str>, b: seq<Str>, normalize: Str -> Option<Str>)
    requires Pieces(a) && SamePieces(a, b)
    ensures Pieces(b) && Parse(Fragment(a), normalize) == Parse(Fragment(b), normalize)
  {
    SamePiecesPieces(a, b);
    SameLength(a, b);
    JoinLength(a);
    JoinLength(b);
    FragmentIsAnnounced(a);
    FragmentIsAnnounced(b);
    if |Fragment(a)| <= MAX_LAUNCH {
      ParsesPieces(a, normalize);
      ParsesPieces(b, normalize);
      OrderDoesNotMatter(ReadPair, a, b);
    }
  }

  /** What stands between the ampersands of a link. */
  function PiecesOf(fragment: Str): seq<Str> { Split(Query(Body(fragment))) }

  /**
   * Whatever a link with parameters says, and even if it is refused, it says the same with its parameters in
   * any other order, and every reordering of them is a link.
   */
  lemma LinkInAnyOrder(fragment: Str, reordered: seq<Str>, normalize: Str -> Option<Str>)
    requires StartsWith(fragment, [HASH]) && Announced(Body(fragment)) && Body(fragment) != NAMESPACE
    requires SamePieces(PiecesOf(fragment), reordered)
    ensures Pieces(reordered) && PiecesOf(Fragment(reordered)) == reordered
    ensures |Fragment(reordered)| == |fragment|
    ensures Parse(Fragment(reordered), normalize) == Parse(fragment, normalize)
  {
    EveryQueryHasPieces(fragment);
    PiecesInAnyOrder(PiecesOf(fragment), reordered, normalize);
    FragmentIsAnnounced(reordered);
    SplitUndoesJoin(reordered);
    SameLength(PiecesOf(fragment), reordered);
    JoinLength(PiecesOf(fragment));
    JoinLength(reordered);
  }

  predicate Known(key: Str) { key == V || key == SERVER || key == CODE || key == ROOM }

  lemma OnlyKnownMatter(found: map<Str, Str>, key: Str, value: Str, normalize: Str -> Option<Str>)
    requires !Known(key)
    ensures FromParameters(found[key := value], normalize) == FromParameters(found, normalize)
  {
  }

  /** A key that no piece spells. */
  ghost predicate FreshKey(pieces: seq<Str>, key: Str)
  {
    forall i :: 0 <= i < |pieces| && ReadPair(pieces[i]).Some? ==> ReadPair(pieces[i]).value.key != key
  }

  lemma FreshKeyIsNotHeld(pieces: seq<Str>, key: Str)
    requires FreshKey(pieces, key) && Collect(ReadPair, pieces).Some?
    ensures key !in Collect(ReadPair, pieces).value
  {
    CollectsExactlyWhen(ReadPair, pieces);
  }

  lemma UnknownPieceIsIgnored(pieces: seq<Str>, piece: Str, normalize: Str -> Option<Str>)
    requires ReadPair(piece).Some? && !Known(ReadPair(piece).value.key) && FreshKey(pieces, ReadPair(piece).value.key)
    ensures ParsePieces(pieces + [piece], normalize) == ParsePieces(pieces, normalize)
  {
    var before, e := Collect(ReadPair, pieces), ReadPair(piece).value;
    assert (pieces + [piece])[..|pieces|] == pieces;
    if before.Some? {
      FreshKeyIsNotHeld(pieces, e.key);
      OnlyKnownMatter(before.value, e.key, e.value, normalize);
    }
  }

  /** A further parameter with a key that is neither known nor already there changes nothing. */
  lemma UnknownIsIgnored(pieces: seq<Str>, piece: Str, normalize: Str -> Option<Str>)
    requires Pieces(pieces) && AMP !in piece && |Fragment(pieces + [piece])| <= MAX_LAUNCH
    requires ReadPair(piece).Some? && !Known(ReadPair(piece).value.key) && FreshKey(pieces, ReadPair(piece).value.key)
    ensures Parse(Fragment(pieces + [piece]), normalize) == Parse(Fragment(pieces), normalize)
  {
    var more := pieces + [piece];
    JoinLength(pieces);
    JoinLength(more);
    TotalLengthSplits(pieces, [piece]);
    ParsesPieces(more, normalize);
    ParsesPieces(pieces, normalize);
    UnknownPieceIsIgnored(pieces, piece, normalize);
  }

  /** A link that gives any decoded key twice is refused, whatever else it says. */
  lemma RepeatedKeyIsRefused(pieces: seq<Str>, i: nat, j: nat, normalize: Str -> Option<Str>)
    requires Pieces(pieces) && i < j < |pieces| && ReadPair(pieces[i]).Some? && ReadPair(pieces[j]).Some?
    requires ReadPair(pieces[i]).value.key == ReadPair(pieces[j]).value.key
    ensures Parse(Fragment(pieces), normalize) == Invalid
  {
    FragmentIsAnnounced(pieces);
    if |Fragment(pieces)| <= MAX_LAUNCH {
      ParsesPieces(pieces, normalize);
      CollectsExactlyWhen(ReadPair, pieces);
    }
  }

  // --- what is read is valid, and printing it again reads back --------------------------------------

  /** An intent a link can carry: the address is one that normalization leaves as it is. */
  predicate Valid(intent: Intent, normalize: Str -> Option<Str>)
  {
    && GoodServer(intent.server) && normalize(intent.server) == Some(intent.server)
    && GoodCode(intent.code)
    && (intent.room.Some? ==> GoodRoom(intent.room.value) && Trimmed(intent.room.value))
  }

  lemma PartIsPrintable(s: Str, i: nat, j: nat)
    requires i <= j <= |s| && !Unprintable(s)
    ensures !Unprintable(s[i..j])
  {
    assert forall k :: 0 <= k < j - i ==> s[i..j][k] == s[i + k];
  }

  lemma TrimmedRoom(room: Str)
    requires GoodRoom(room)
    ensures GoodRoom(Trim(room)) && Trimmed(Trim(room))
  {
    var i, j := TrimIs(room);
    var k, l := TrimIs(Trim(room));
    PartIsPrintable(room, i, j);
  }

  /** Everything a link can be read as is valid, as far as its own address was normal. */
  lemma ParsedIsValid(fragment: Str, normalize: Str -> Option<Str>)
    requires Parse(fragment, normalize).Launch?
    ensures
      var intent := Parse(fragment, normalize).intent;
      && GoodCode(intent.code) && |fragment| <= MAX_LAUNCH
      && (intent.room.Some? ==> GoodRoom(intent.room.value) && Trimmed(intent.room.value))
      && exists server :: GoodServer(server) && normalize(server) == Some(intent.server)
  {
    var found := Parameters(Query(Body(fragment))).value;
    if ROOM in found {
      TrimmedRoom(found[ROOM]);
    }
    assert GoodServer(Get(found, SERVER));
  }

  predicate WellFormed(s: Str) { Scalars(s).Some? }

  /** `key=value`, encoded. */
  function PrintEntry(style: Style, e: Entry): Str
    requires WellFormed(e.key) && WellFormed(e.value)
  {
    Encode(style, Scalars(e.key).value) + [EQ] + Encode(style, Scalars(e.value).value)
  }

  lemma PrintedReadsBack(style: Style, e: Entry)
    requires Proper(style) && WellFormed(e.key) && WellFormed(e.value) && e.key != []
    ensures ReadPair(PrintEntry(style, e)) == Some(e) && AMP !in PrintEntry(style, e)
  {
    var key, value := Encode(style, Scalars(e.key).value), Encode(style, Scalars(e.value).value);
    EncodedHasNoSeparators(style, Scalars(e.key).value);
    EncodedHasNoSeparators(style, Scalars(e.value).value);
    DecodeUndoesEncode(style, Scalars(e.key).value);
    DecodeUndoesEncode(style, Scalars(e.value).value);
    IndexOfFirst(key, EQ, value);
    var piece := PrintEntry(style, e);
    assert piece[..|key|] == key && piece[|key| + 1..] == value;
  }

  lemma {:induction false} PlainTextIsWellFormed(s: Str)
    requires forall i :: 0 <= i < |s| ==> s[i] < 0x80
    ensures WellFormed(s)
  {
    if s != [] {
      PlainTextIsWellFormed(s[1..]);
    }
  }

  lemma KeysAreWellFormed()
    ensures WellFormed(V) && WellFormed(SERVER) && WellFormed(CODE) && WellFormed(ROOM) && WellFormed(VERSION)
  {
    var keys := [V, SERVER, CODE, ROOM, VERSION];
    forall i | 0 <= i < |keys| ensures WellFormed(keys[i]) {
      PlainTextIsWellFormed(keys[i]);
    }
    assert keys[0] == V && keys[1] == SERVER && keys[2] == CODE && keys[3] == ROOM && keys[4] == VERSION;
  }

  lemma KeysAreDistinct()
    ensures V != SERVER && V != CODE && V != ROOM && SERVER != CODE && SERVER != ROOM && CODE != ROOM
    ensures V != [] && SERVER != [] && CODE != [] && ROOM != []
  {
    assert CODE[0] != ROOM[0];
  }

  /** What an intent says can be encoded. */
  predicate Encodable(intent: Intent)
  {
    WellFormed(intent.server) && WellFormed(intent.code) && (intent.room.Some? ==> WellFormed(intent.room.value))
  }

  function EntriesOf(intent: Intent): seq<Entry>
  {
    [Entry(V, VERSION), Entry(SERVER, intent.server), Entry(CODE, intent.code)]
    + if intent.room.Some? then [Entry(ROOM, intent.room.value)] else []
  }

  predicate AllWellFormed(entries: seq<Entry>)
  {
    forall e :: e in entries ==> WellFormed(e.key) && WellFormed(e.value) && e.key != []
  }

  function PrintAll(style: Style, entries: seq<Entry>): (pieces: seq<Str>)
    requires AllWellFormed(entries)
    ensures |pieces| == |entries|
  {
    if entries == [] then []
    else PrintAll(style, entries[..|entries| - 1]) + [PrintEntry(style, entries[|entries| - 1])]
  }

  function MapOf(entries: seq<Entry>): map<Str, Str>
  {
    if entries == [] then map[]
    else
      var last := entries[|entries| - 1];
      MapOf(entries[..|entries| - 1])[last.key := last.value]
  }

  ghost predicate KeysDiffer(entries: seq<Entry>)
  {
    forall i, j :: 0 <= i < j < |entries| ==> entries[i].key != entries[j].key
  }

  lemma {:induction false} MapHoldsKeys(entries: seq<Entry>)
    ensures forall k :: k in MapOf(entries) ==> exists i :: 0 <= i < |entries| && entries[i].key == k
    decreases |entries|
  {
    if entries != [] {
      var n := |entries| - 1;
      var front := entries[..n];
      MapHoldsKeys(front);
      forall k | k in MapOf(entries) ensures exists i :: 0 <= i < |entries| && entries[i].key == k {
        if k != entries[n].key {
          assert k in MapOf(front);
          var i :| 0 <= i < |front| && front[i].key == k;
          assert entries[i].key == k;
        }
      }
    }
  }

  /** Any entries with distinct keys, printed in any proper style, are collected again. */
  lemma {:induction false} PrintedIsCollected(style: Style, entries: seq<Entry>)
    requires Proper(style) && AllWellFormed(entries) && KeysDiffer(entries)
    ensures Collect(ReadPair, PrintAll(style, entries)) == Some(MapOf(entries))
    decreases |entries|
  {
    if entries != [] {
      var n := |entries| - 1;
      PrintedIsCollected(style, entries[..n]);
      PrintedReadsBack(style, entries[n]);
      KeyIsFresh(entries);
      CollectOneMore(PrintAll(style, entries[..n]), PrintEntry(style, entries[n]));
    }
  }

  lemma {:induction false} PrintedHasNoAmps(style: Style, entries: seq<Entry>)
    requires Proper(style) && AllWellFormed(entries)
    ensures forall i :: 0 <= i < |entries| ==> AMP !in PrintAll(style, entries)[i]
    decreases |entries|
  {
    if entries != [] {
      PrintedHasNoAmps(style, entries[..|entries| - 1]);
      PrintedReadsBack(style, entries[|entries| - 1]);
    }
  }

  lemma CollectOneMore(pieces: seq<Str>, piece: Str)
    requires Collect(ReadPair, pieces).Some? && ReadPair(piece).Some?
    requires ReadPair(piece).value.key !in Collect(ReadPair, pieces).value
    ensures Collect(ReadPair, pieces + [piece])
      == Some(Collect(ReadPair, pieces).value[ReadPair(piece).value.key := ReadPair(piece).value.value])
  {
    assert (pieces + [piece])[..|pieces|] == pieces;
  }

  lemma KeyIsFresh(entries: seq<Entry>)
    requires KeysDiffer(entries) && entries != []
    ensures entries[|entries| - 1].key !in MapOf(entries[..|entries| - 1])
  {
    MapHoldsKeys(entries[..|entries| - 1]);
  }

  /** The same list, with any four keys. */
  function FourEntries(v: Entry, server: Entry, code: Entry, room: Option<Entry>): seq<Entry>
  {
    [v, server, code] + if room.Some? then [room.value] else []
  }

  lemma FourEntriesDiffer(v: Entry, server: Entry, code: Entry, room: Option<Entry>)
    requires v.key != server.key && v.key != code.key && server.key != code.key
    requires room.Some? ==> room.value.key !in {v.key, server.key, code.key}
    ensures KeysDiffer(FourEntries(v, server, code, room))
  {
  }

  lemma MapOfFour(v: Entry, server: Entry, code: Entry, room: Option<Entry>)
    ensures
      var three := map[][v.key := v.value][server.key := server.value][code.key := code.value];
      MapOf(FourEntries(v, server, code, room))
        == if room.Some? then three[room.value.key := room.value.value] else three
  {
    var one, two, three := [v], [v, server], [v, server, code];
    assert one[..0] == [] && two[..1] == one && three[..2] == two;
    assert MapOf(one) == map[][v.key := v.value];
    assert MapOf(two) == MapOf(one)[server.key := server.value];
    assert FourEntries(v, server, code, None) == three;
    assert MapOf(three) == map[][v.key := v.value][server.key := server.value][code.key := code.value];
    if room.Some? {
      var four := FourEntries(v, server, code, room);
      assert four[..3] == three && four[3] == room.value;
      assert MapOf(four) == MapOf(four[..3])[four[3].key := four[3].value];
    }
  }

  lemma LookUpFour(v: Entry, server: Entry, code: Entry, room: Option<Entry>, roomKey: Str)
    requires v.key != server.key && v.key != code.key && server.key != code.key
    requires roomKey !in {v.key, server.key, code.key} && (room.Some? ==> room.value.key == roomKey)
    ensures
      var found := MapOf(FourEntries(v, server, code, room));
      && v.key in found && found[v.key] == v.value
      && Get(found, server.key) == server.value && Get(found, code.key) == code.value
      && (roomKey in found <==> room.Some?) && (room.Some? ==> found[roomKey] == room.value.value)
  {
    MapOfFour(v, server, code, room);
  }

  lemma FourWellFormed(v: Entry, server: Entry, code: Entry, room: Option<Entry>)
    requires AllWellFormed([v]) && AllWellFormed([server]) && AllWellFormed([code])
    requires room.Some? ==> AllWellFormed([room.value])
    ensures AllWellFormed(FourEntries(v, server, code, room))
  {
    assert v in [v] && server in [server] && code in [code];
    assert room.Some? ==> room.value in [room.value];
  }

  lemma OneWellFormed(e: Entry)
    requires WellFormed(e.key) && WellFormed(e.value) && e.key != []
    ensures AllWellFormed([e])
  {
  }

  function RoomEntry(intent: Intent): Option<Entry>
  {
    if intent.room.Some? then Some(Entry(ROOM, intent.room.value)) else None
  }

  lemma EntriesAreFour(intent: Intent)
    ensures EntriesOf(intent)
      == FourEntries(Entry(V, VERSION), Entry(SERVER, intent.server), Entry(CODE, intent.code), RoomEntry(intent))
  {
  }

  lemma EntriesAreWellFormed(intent: Intent)
    requires Encodable(intent)
    ensures AllWellFormed(EntriesOf(intent)) && KeysDiffer(EntriesOf(intent))
  {
    var v, server := Entry(V, VERSION), Entry(SERVER, intent.server);
    var code, room := Entry(CODE, intent.code), RoomEntry(intent);
    KeysAreWellFormed();
    KeysAreDistinct();
    EntriesAreFour(intent);
    OneWellFormed(v);
    OneWellFormed(server);
    OneWellFormed(code);
    if room.Some? {
      OneWellFormed(room.value);
    }
    FourWellFormed(v, server, code, room);
    FourEntriesDiffer(v, server, code, room);
  }

  function Print(style: Style, intent: Intent): Str
    requires Encodable(intent)
  {
    EntriesAreWellFormed(intent);
    Fragment(PrintAll(style, EntriesOf(intent)))
  }

  lemma MapOfEntries(intent: Intent)
    ensures
      var found := MapOf(EntriesOf(intent));
      && V in found && found[V] == VERSION && Get(found, SERVER) == intent.server && Get(found, CODE) == intent.code
      && (ROOM in found <==> intent.room.Some?) && (intent.room.Some? ==> found[ROOM] == intent.room.value)
  {
    KeysAreDistinct();
    EntriesAreFour(intent);
    LookUpFour(Entry(V, VERSION), Entry(SERVER, intent.server), Entry(CODE, intent.code), RoomEntry(intent), ROOM);
  }

  lemma CodeTrims(code: Str)
    requires GoodCode(code)
    ensures Trim(code) == code
  {
    var i, j := TrimIs(code);
  }

  /**
   * Reading undoes printing: a valid intent, encoded by `encodeURIComponent`, by the form serializer or in any
   * other proper style, reads back as itself if the link is not too long.
   */
  lemma ParseUndoesPrint(style: Style, intent: Intent, normalize: Str -> Option<Str>)
    requires Proper(style) && Valid(intent, normalize) && Encodable(intent)
    requires |Print(style, intent)| <= MAX_LAUNCH
    ensures Parse(Print(style, intent), normalize) == Launch(intent)
  {
    var entries := EntriesOf(intent);
    EntriesAreWellFormed(intent);
    PrintedIsCollected(style, entries);
    PrintedHasNoAmps(style, entries);
    ParsesPieces(PrintAll(style, entries), normalize);
    MapReadsBack(intent, normalize);
  }

  lemma MapReadsBack(intent: Intent, normalize: Str -> Option<Str>)
    requires Valid(intent, normalize)
    ensures FromParameters(MapOf(EntriesOf(intent)), normalize) == Launch(intent)
  {
    MapOfEntries(intent);
    CodeTrims(intent.code);
    if intent.room.Some? {
      var i, j := TrimIs(intent.room.value);
    }
  }

  /** Links made by `encodeURIComponent` and by the form serializer read back. */
  lemma SerializersReadBack(intent: Intent, normalize: Str -> Option<Str>)
    requires Valid(intent, normalize) && Encodable(intent)
    ensures |Print(COMPONENT, intent)| <= MAX_LAUNCH ==> Parse(Print(COMPONENT, intent), normalize) == Launch(intent)
    ensures |Print(FORM, intent)| <= MAX_LAUNCH ==> Parse(Print(FORM, intent), normalize) == Launch(intent)
  {
    BothStylesAreProper();
    if |Print(COMPONENT, intent)| <= MAX_LAUNCH {
      ParseUndoesPrint(COMPONENT, intent, normalize);
    }
    if |Print(FORM, intent)| <= MAX_LAUNCH {
      ParseUndoesPrint(FORM, intent, normalize);
    }
  }

  lemma ScanReadsFragment(address: Str, link: Str, normalize: Str -> Option<Str>)
    requires HASH !in address && link != [] && link[0] == HASH
    ensures ParseUrl(address + link, normalize) == Parse(link, normalize)
  {
    assert link == [HASH] + link[1..];
    IndexOfFirst(address, HASH, link[1..]);
    assert address + link == address + [HASH] + link[1..];
    assert (address + link)[|address|..] == link;
  }

  /** The same from a scanned text, whatever address comes before the fragment. */
  lemma ScanUndoesPrint(style: Style, intent: Intent, normalize: Str -> Option<Str>, address: Str)
    requires Proper(style) && Valid(intent, normalize) && Encodable(intent) && HASH !in address
    requires |Print(style, intent)| <= MAX_LAUNCH
    ensures ParseUrl(address + Print(style, intent), normalize) == Launch(intent)
  {
    ParseUndoesPrint(style, intent, normalize);
    ScanReadsFragment(address, Print(style, intent), normalize);
  }

  // --- handing it over once -------------------------------------------------------------------------

  /** The address bar's fragment and the one module variable. */
  datatype Page = Page(hash: Str, captured: Option<Result>)

  function Consumed(page: Page, normalize: Str -> Option<Str>, scrubs: bool): Page
  {
    if Parse(page.hash, normalize) != NoLaunch && scrubs then page.(hash := []) else page
  }

  function Captured(page: Page, normalize: Str -> Option<Str>, scrubs: bool): Page
  {
    Consumed(page, normalize, scrubs).(captured := Some(Parse(page.hash, normalize)))
  }

  function Taken(page: Page, normalize: Str -> Option<Str>, scrubs: bool): (Page, Result)
  {
    if page.captured.Some? then (page.(captured := None), page.captured.value)
    else (Consumed(page, normalize, scrubs), Parse(page.hash, normalize))
  }

  class Address {
    var hash: Str
    var captured: Option<Result>
    const normalize: Str -> Option<Str>

    function View(): Page
      reads this
    {
      Page(hash, captured)
    }

    constructor (hash: Str, normalize: Str -> Option<Str>)
      ensures View() == Page(hash, None) && this.normalize == normalize
    {
      this.hash, captured, this.normalize := hash, None, normalize;
    }

    /** `scrubs` is whether the browser takes the `replaceState`. */
    method Consume(scrubs: bool) returns (result: Result)
      modifies `hash
      ensures View() == Consumed(old(View()), normalize, scrubs) && result == Parse(old(hash), normalize)
    {
      result := Parse(hash, normalize);
      if result != NoLaunch && scrubs {
        hash := [];
      }
    }

    method Capture(scrubs: bool) returns (result: Result)
      modifies this
      ensures View() == Captured(old(View()), normalize, scrubs) && result == Parse(old(hash), normalize)
    {
      result := Consume(scrubs);
      captured := Some(result);
    }

    method Take(scrubs: bool) returns (result: Result)
      modifies this
      ensures (View(), result) == Taken(old(View()), normalize, scrubs)
    {
      if captured.Some? {
        result := captured.value;
      } else {
        result := Consume(scrubs);
      }
      captured := None;
    }
  }

  /** The results of taking again and again. */
  function Takes(page: Page, normalize: Str -> Option<Str>, scrubs: seq<bool>): (results: seq<Result>)
    ensures |results| == |scrubs|
    decreases |scrubs|
  {
    if scrubs == [] then []
    else [Taken(page, normalize, scrubs[0]).1] + Takes(Taken(page, normalize, scrubs[0]).0, normalize, scrubs[1..])
  }

  lemma EmptyIsNoLaunch(normalize: Str -> Option<Str>)
    ensures Parse([], normalize) == NoLaunch
  {
  }

  lemma {:induction false} NothingLeft(page: Page, normalize: Str -> Option<Str>, scrubs: seq<bool>)
    requires page.captured.None? && Parse(page.hash, normalize) == NoLaunch
    ensures forall r :: r in Takes(page, normalize, scrubs) ==> r == NoLaunch
    decreases |scrubs|
  {
    if scrubs != [] {
      NothingLeft(page, normalize, scrubs[1..]);
    }
  }

  /** A captured link is handed over by the first taking, and by no later one when it was scrubbed. */
  lemma HandedOverOnce(hash: Str, normalize: Str -> Option<Str>, scrubs: seq<bool>)
    requires scrubs != []
    ensures
      var page := Captured(Page(hash, None), normalize, true);
      var results := Takes(page, normalize, scrubs);
      && Parse(page.hash, normalize) == NoLaunch
      && results[0] == Parse(hash, normalize)
      && forall r :: r in results[1..] ==> r == NoLaunch
  {
    EmptyIsNoLaunch(normalize);
    var page := Captured(Page(hash, None), normalize, true);
    NothingLeft(Taken(page, normalize, scrubs[0]).0, normalize, scrubs[1..]);
  }

  /** Where the browser refuses the scrub, a second taking hands the same code over again. */
  lemma TakenTwiceExactlyWhen(hash: Str, normalize: Str -> Option<Str>, scrubbed: bool, first: bool, second: bool)
    ensures
      var page := Captured(Page(hash, None), normalize, scrubbed);
      var results := Takes(page, normalize, [first, second]);
      && results[0] == Parse(hash, normalize)
      && (results[1] != NoLaunch <==> Parse(hash, normalize) != NoLaunch && !scrubbed)
      && (results[1] != NoLaunch ==> results[1] == results[0])
  {
    EmptyIsNoLaunch(normalize);
    var page := Captured(Page(hash, None), normalize, scrubbed);
    assert [first, second][1..] == [second];
    assert Takes(page, normalize, [first, second])
      == [Taken(page, normalize, first).1] + Takes(Taken(page, normalize, first).0, normalize, [second]);
  }

  // --- what a fragment is taken for -----------------------------------------------------------------

  /**
   * A fragment is no link exactly when it does not announce one, and of another version exactly when it does, is
   * not too long and gives a version that is not the known one; otherwise it is a link or invalid.
   */
  lemma TakenForExactly(fragment: Str, normalize: Str -> Option<Str>)
    ensures
      var r := Parse(fragment, normalize);
      var found := Parameters(Query(Body(fragment)));
      && (r.NoLaunch? <==> !Announced(Body(fragment)))
      && (r.Unsupported? <==>
            && Announced(Body(fragment)) && |fragment| <= 2048
            && found.Some? && V in found.value && found.value[V] != Lit("1"))
      && (r.Launch? ==> Announced(Body(fragment)) && found.Some? && V in found.value && found.value[V] == Lit("1"))
  {
    assert VERSION == Lit("1");
  }

  /** A scanned text without a fragment is no link; any other is what its fragment is. */
  lemma ScannedForExactly(before: Str, fragment: Str, normalize: Str -> Option<Str>)
    requires HASH !in before
    ensures ParseUrl(before, normalize) == NoLaunch
    ensures fragment != [] && fragment[0] == HASH ==>
      ParseUrl(before + fragment, normalize) == Parse(fragment, normalize)
  {
    if fragment != [] && fragment[0] == HASH {
      IndexOfFirst(before, HASH, fragment[1..]);
      assert before + [HASH] + fragment[1..] == before + fragment;
      assert (before + fragment)[|before|..] == fragment;
    }
  }

  predicate Printable(u: Unit) { 32 <= u && u != 127 }

  lemma {:induction false} TrimEndKeepsFirst(s: Str)
    requires s != [] && !IsSpace(s[0])
    ensures TrimEnd(s) != []
    decreases |s|
  {
    if IsSpace(s[|s| - 1]) {
      TrimEndKeepsFirst(s[..|s| - 1]);
    }
  }

  lemma {:induction false} TrimIsEmptyExactlyWhen(s: Str)
    ensures Trim(s) != [] <==> exists i :: 0 <= i < |s| && !IsSpace(s[i])
    decreases |s|
  {
    if s != [] {
      if IsSpace(s[0]) {
        TrimIsEmptyExactlyWhen(s[1..]);
        assert forall i :: 0 < i < |s| ==> s[i] == s[1..][i - 1];
      } else {
        TrimEndKeepsFirst(s);
      }
    }
  }

  /** What a link may say: the limits of each part. */
  lemma GoodExactlyWhen(s: Str)
    ensures GoodCode(s) <==> 1 <= |s| <= 64 && forall i :: 0 <= i < |s| ==> Printable(s[i]) && !IsSpace(s[i])
    ensures GoodRoom(s) <==>
      |s| <= 128 && (forall i :: 0 <= i < |s| ==> Printable(s[i])) && exists i :: 0 <= i < |s| && !IsSpace(s[i])
    ensures GoodServer(s) <==>
      |s| <= 512 && (forall i :: 0 <= i < |s| ==> Printable(s[i]))
      && (Lit("http://") <= Lower(s) || Lit("https://") <= Lower(s))
  {
    TrimIsEmptyExactlyWhen(s);
  }
}
