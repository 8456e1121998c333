// The parameters of a pairing link (`readParameters` in src/app/PairingLaunch.ts): pieces between ampersands,
// each a percent-encoded key and value, of which no key may be empty or repeated.
module PairingParameters {
  import opened Text
  import opened PercentCoding

  const AMP: Unit := 38
  const EQ: Unit := 61

  // --- splitting ------------------------------------------------------------------------------------

  function IndexOf(s: Str, u: Unit): (r: Option<nat>)
    ensures r.Some? ==> r.value < |s| && s[r.value] == u && u !in s[..r.value]
    ensures r.None? ==> u !in s
  {
    if s == [] then None
    else if s[0] == u then Some(0)
    else
      var rest := IndexOf(s[1..], u);
      if rest.Some? then Some(rest.value + 1) else None
  }

  function Split(s: Str): (pieces: seq<Str>)
    ensures pieces != []
    decreases |s|
  {
    var at := IndexOf(s, AMP);
    if at.None? then [s] else [s[..at.value]] + Split(s[at.value + 1..])
  }

  function Join(pieces: seq<Str>): Str
    requires pieces != []
  {
    if |pieces| == 1 then pieces[0] else pieces[0] + [AMP] + Join(pieces[1..])
  }

  ghost predicate Pieces(pieces: seq<Str>)
  {
    pieces != [] && forall i :: 0 <= i < |pieces| ==> AMP !in pieces[i]
  }

  lemma {:induction false} JoinUndoesSplit(s: Str)
    ensures Pieces(Split(s)) && Join(Split(s)) == s
    decreases |s|
  {
    var at := IndexOf(s, AMP);
    if at.Some? {
      JoinUndoesSplit(s[at.value + 1..]);
      assert s == s[..at.value] + [AMP] + s[at.value + 1..];
    }
  }

  lemma {:induction false} IndexOfFirst(a: Str, u: Unit, b: Str)
    requires u !in a
    ensures IndexOf(a + [u] + b, u) == Some(|a|)
    decreases |a|
  {
    if a != [] {
      IndexOfFirst(a[1..], u, b);
      assert (a + [u] + b)[1..] == a[1..] + [u] + b;
    }
  }

  lemma {:induction false} SplitUndoesJoin(pieces: seq<Str>)
    requires Pieces(pieces)
    ensures Split(Join(pieces)) == pieces
    decreases |pieces|
  {
    if |pieces| > 1 {
      SplitUndoesJoin(pieces[1..]);
      IndexOfFirst(pieces[0], AMP, Join(pieces[1..]));
      var s := Join(pieces);
      assert s[..|pieces[0]|] == pieces[0] && s[|pieces[0]| + 1..] == Join(pieces[1..]);
    }
  }

  // --- parameters -----------------------------------------------------------------------------------

  datatype Entry = Entry(key: Str, value: Str)

  /** One `key=value`; None is a piece the parser refuses. */
  function ReadPair(piece: Str): Option<Entry>
  {
    var at := IndexOf(piece, EQ);
    var key := DecodeComponent(if at.Some? then piece[..at.value] else piece);
    var value := DecodeComponent(if at.Some? then piece[at.value + 1..] else []);
    if piece == [] || key.None? || value.None? || key.value == [] then None else Some(Entry(key.value, value.value))
  }

  function Collect(read: Str -> Option<Entry>, pieces: seq<Str>): Option<map<Str, Str>>
  {
    if pieces == [] then Some(map[])
    else
      var before, e := Collect(read, pieces[..|pieces| - 1]), read(pieces[|pieces| - 1]);
      if before.None? || e.None? || e.value.key in before.value then None
      else Some(before.value[e.value.key := e.value.value])
  }

  function Parameters(query: Str): Option<map<Str, Str>>
  {
    if query == [] then Some(map[]) else Collect(ReadPair, Split(query))
  }

  /** One turn of the loop: what is found so far, and a piece; None ends it. */
  method ReadPiece(found: map<Str, Str>, piece: Str) returns (more: Option<map<Str, Str>>)
    ensures
      var e := ReadPair(piece);
      more == if e.None? || e.value.key in found then None else Some(found[e.value.key := e.value.value])
  {
    if piece == [] {
      return None;
    }
    var separator := IndexOf(piece, EQ);
    var rawKey := if separator.None? then piece else piece[..separator.value];
    var rawValue := if separator.None? then [] else piece[separator.value + 1..];
    var key, value := DecodeComponent(rawKey), DecodeComponent(rawValue);
    if key.None? || value.None? {
      return None;
    }
    if key.value == [] || key.value in found {
      return None;
    }
    return Some(found[key.value := value.value]);
  }

  method ReadParameters(query: Str) returns (parameters: Option<map<Str, Str>>)
    ensures parameters == Parameters(query)
  {
    if query == [] {
      return Some(map[]);
    }
    var pieces := Split(query);
    var found: map<Str, Str> := map[];
    for i := 0 to |pieces|
      invariant Collect(ReadPair, pieces[..i]) == Some(found)
    {
      assert pieces[..i + 1][..i] == pieces[..i];
      RefusedPieceRefusesAll(ReadPair, pieces, i + 1);
      var more := ReadPiece(found, pieces[i]);
      if more.None? {
        return None;
      }
      found := more.value;
    }
    assert pieces[..|pieces|] == pieces;
    return Some(found);
  }

  lemma {:induction false} RefusedPieceRefusesAll(read: Str -> Option<Entry>, pieces: seq<Str>, n: nat)
    requires n <= |pieces|
    ensures Collect(read, pieces[..n]).None? ==> Collect(read, pieces).None?
    decreases |pieces|
  {
    if n < |pieces| {
      assert pieces[..|pieces| - 1][..n] == pieces[..n];
      RefusedPieceRefusesAll(read, pieces[..|pieces| - 1], n);
    } else {
      assert pieces[..n] == pieces;
    }
  }

  ghost predicate AllRead(read: Str -> Option<Entry>, pieces: seq<Str>)
  {
    forall i :: 0 <= i < |pieces| ==> read(pieces[i]).Some?
  }

  ghost predicate DistinctKeys(read: Str -> Option<Entry>, pieces: seq<Str>)
    requires AllRead(read, pieces)
  {
    forall i, j :: 0 <= i < j < |pieces| ==> read(pieces[i]).value.key != read(pieces[j]).value.key
  }

  /** A map holds exactly the entries the pieces spell. */
  ghost predicate Holds(read: Str -> Option<Entry>, found: map<Str, Str>, pieces: seq<Str>)
    requires AllRead(read, pieces)
  {
    && (forall i :: 0 <= i < |pieces| ==>
          read(pieces[i]).value.key in found && found[read(pieces[i]).value.key] == read(pieces[i]).value.value)
    && (forall k :: k in found ==> exists i :: 0 <= i < |pieces| && read(pieces[i]).value.key == k)
  }

  lemma OneMoreKey(read: Str -> Option<Entry>, front: seq<Str>, piece: Str, found: map<Str, Str>)
    requires AllRead(read, front) && Holds(read, found, front) && read(piece).Some?
    ensures AllRead(read, front + [piece])
    ensures DistinctKeys(read, front + [piece]) <==> DistinctKeys(read, front) && read(piece).value.key !in found
  {
    var pieces, n := front + [piece], |front|;
    assert forall i :: 0 <= i < n ==> pieces[i] == front[i];
    assert pieces[n] == piece;
    var k := read(piece).value.key;
    if k in found {
      var i :| 0 <= i < n && read(front[i]).value.key == k;
      assert read(pieces[i]).value.key == read(pieces[n]).value.key;
    }
    if DistinctKeys(read, pieces) {
      forall i, j | 0 <= i < j < n ensures read(front[i]).value.key != read(front[j]).value.key {
        assert pieces[i] == front[i] && pieces[j] == front[j];
      }
    }
  }

  lemma OneMorePiece(read: Str -> Option<Entry>, front: seq<Str>, piece: Str, found: map<Str, Str>)
    requires AllRead(read, front) && Holds(read, found, front) && AllRead(read, front + [piece])
    requires read(piece).Some? && read(piece).value.key !in found
    ensures Holds(read, found[read(piece).value.key := read(piece).value.value], front + [piece])
  {
    var pieces, n := front + [piece], |front|;
    assert pieces[n] == piece;
    var k := read(piece).value.key;
    var more := found[k := read(piece).value.value];
    forall x | x in more ensures exists i :: 0 <= i < |pieces| && read(pieces[i]).value.key == x {
      if x == k {
        assert read(pieces[n]).value.key == x;
      } else {
        var i :| 0 <= i < n && read(front[i]).value.key == x;
        assert read(pieces[i]).value.key == x;
      }
    }
  }

  lemma FewerPieces(read: Str -> Option<Entry>, front: seq<Str>, piece: Str)
    requires AllRead(read, front + [piece])
    ensures AllRead(read, front) && read(piece).Some?
    ensures DistinctKeys(read, front + [piece]) ==> DistinctKeys(read, front)
  {
    var pieces := front + [piece];
    assert pieces[|front|] == piece;
    forall i | 0 <= i < |front| ensures read(front[i]).Some? && pieces[i] == front[i] {
      assert read(pieces[i]).Some?;
    }
  }

  /** Pieces are accepted exactly when each reads and no decoded key is repeated. */
  lemma {:induction false} CollectsExactlyWhen(read: Str -> Option<Entry>, pieces: seq<Str>)
    ensures Collect(read, pieces).Some? <==> AllRead(read, pieces) && DistinctKeys(read, pieces)
    ensures Collect(read, pieces).Some? ==> Holds(read, Collect(read, pieces).value, pieces)
    decreases |pieces|
  {
    if pieces != [] {
      var n := |pieces| - 1;
      var front, piece := pieces[..n], pieces[n];
      CollectsExactlyWhen(read, front);
      assert pieces == front + [piece];
      if AllRead(read, pieces) {
        FewerPieces(read, front, piece);
      }
      if Collect(read, front).Some? && read(piece).Some? {
        OneMoreKey(read, front, piece, Collect(read, front).value);
        if read(piece).value.key !in Collect(read, front).value {
          OneMorePiece(read, front, piece, Collect(read, front).value);
        }
      }
    }
  }

  ghost predicate SamePieces(a: seq<Str>, b: seq<Str>) { multiset(a) == multiset(b) }

  lemma SamePiecesRead(read: Str -> Option<Entry>, a: seq<Str>, b: seq<Str>)
    requires SamePieces(a, b) && AllRead(read, a)
    ensures AllRead(read, b)
  {
    forall i | 0 <= i < |b| ensures read(b[i]).Some? {
      assert b[i] in multiset(a);
    }
  }

  lemma {:induction false} OnceEach(read: Str -> Option<Entry>, a: seq<Str>, piece: Str)
    requires AllRead(read, a) && DistinctKeys(read, a)
    ensures multiset(a)[piece] <= 1
  {
    if a != [] {
      OnceEach(read, a[1..], piece);
      assert a == [a[0]] + a[1..];
      assert a[0] == piece ==> piece !in a[1..];
    }
  }

  lemma SamePiecesDistinct(read: Str -> Option<Entry>, a: seq<Str>, b: seq<Str>)
    requires SamePieces(a, b) && AllRead(read, a) && AllRead(read, b) && DistinctKeys(read, a)
    ensures DistinctKeys(read, b)
  {
    forall i, j | 0 <= i < j < |b| ensures read(b[i]).value.key != read(b[j]).value.key {
      if b[i] == b[j] {
        assert b == b[..i] + [b[i]] + b[i + 1..j] + [b[j]] + b[j + 1..];
        assert multiset(b)[b[i]] >= 2;
        OnceEach(read, a, b[i]);
      }
      assert b[i] in multiset(a) && b[j] in multiset(a);
    }
  }

  lemma HeldSame(read: Str -> Option<Entry>, a: seq<Str>, b: seq<Str>, m: map<Str, Str>, n: map<Str, Str>)
    requires SamePieces(a, b) && AllRead(read, a) && AllRead(read, b) && Holds(read, m, a) && Holds(read, n, b)
    ensures forall k :: k in m ==> k in n && n[k] == m[k]
  {
    forall k | k in m ensures k in n && n[k] == m[k] {
      var i :| 0 <= i < |a| && read(a[i]).value.key == k;
      assert a[i] in multiset(b);
    }
  }

  lemma StillAccepted(read: Str -> Option<Entry>, a: seq<Str>, b: seq<Str>)
    requires SamePieces(a, b) && Collect(read, a).Some?
    ensures Collect(read, b).Some?
  {
    CollectsExactlyWhen(read, a);
    SamePiecesRead(read, a, b);
    SamePiecesDistinct(read, a, b);
    CollectsExactlyWhen(read, b);
  }

  ghost predicate Within(m: map<Str, Str>, n: map<Str, Str>) { forall k :: k in m ==> k in n && n[k] == m[k] }

  lemma HeldWithin(read: Str -> Option<Entry>, a: seq<Str>, b: seq<Str>)
    requires SamePieces(a, b) && Collect(read, a).Some? && Collect(read, b).Some?
    ensures Within(Collect(read, a).value, Collect(read, b).value)
  {
    CollectsExactlyWhen(read, a);
    CollectsExactlyWhen(read, b);
    HeldSame(read, a, b, Collect(read, a).value, Collect(read, b).value);
  }

  lemma WithinBothWays(m: map<Str, Str>, n: map<Str, Str>)
    requires Within(m, n) && Within(n, m)
    ensures m == n
  {
  }

  lemma AcceptedInAnyOrder(read: Str -> Option<Entry>, a: seq<Str>, b: seq<Str>)
    requires SamePieces(a, b) && Collect(read, a).Some?
    ensures Collect(read, b) == Collect(read, a)
  {
    StillAccepted(read, a, b);
    HeldWithin(read, a, b);
    HeldWithin(read, b, a);
    WithinBothWays(Collect(read, a).value, Collect(read, b).value);
  }

  /** What the pieces give does not depend on their order. */
  lemma OrderDoesNotMatter(read: Str -> Option<Entry>, a: seq<Str>, b: seq<Str>)
    requires SamePieces(a, b)
    ensures Collect(read, a) == Collect(read, b)
  {
    if Collect(read, a).Some? {
      AcceptedInAnyOrder(read, a, b);
    } else if Collect(read, b).Some? {
      AcceptedInAnyOrder(read, b, a);
    }
  }

  // --- one piece ------------------------------------------------------------------------------------

  /** A piece with an equals sign is read at the first one: both sides must decode, and the key be something. */
  lemma ReadsAtTheFirstEquals(a: Str, b: Str, e: Entry)
    requires EQ !in a
    ensures ReadPair(a + [EQ] + b) == Some(e) <==>
      DecodeComponent(a) == Some(e.key) && DecodeComponent(b) == Some(e.value) && e.key != []
  {
    var piece := a + [EQ] + b;
    IndexOfFirst(a, EQ, b);
    assert piece[..|a|] == a && piece[|a| + 1..] == b;
  }

  /** A piece without one is a key with an empty value. */
  lemma ReadsAKeyAlone(a: Str, e: Entry)
    requires EQ !in a
    ensures ReadPair(a) == Some(e) <==> DecodeComponent(a) == Some(e.key) && e.value == [] && e.key != []
  {
    assert DecodeComponent([]) == Some([]);
  }
}
