// The canonical query of a presigned URL (src/modules/media/utils/r2-presign.util.ts:90-109)
// and the keys of uploaded objects (src/modules/media/providers/r2.service.ts:68-70, 178-180).
module PresignedUrls {
  import opened Common
  import opened Rfc3986
  import opened Sequences

  datatype Param = Param(key: Text, value: Text)

  // ----- Sorting the keys -----

  // The order of JavaScript's sort: by code units, a prefix first.
  predicate Before(a: Text, b: Text) {
    if a == [] then true
    else if b == [] then false
    else a[0] < b[0] || (a[0] == b[0] && Before(a[1..], b[1..]))
  }

  lemma {:induction false} BeforeIsTotal(a: Text, b: Text)
    ensures Before(a, b) || Before(b, a)
  {
    if a != [] && b != [] {
      BeforeIsTotal(a[1..], b[1..]);
    }
  }

  lemma {:induction false} BeforeIsTransitive(a: Text, b: Text, c: Text)
    requires Before(a, b) && Before(b, c)
    ensures Before(a, c)
  {
    if a != [] && a[0] == b[0] && b[0] == c[0] {
      BeforeIsTransitive(a[1..], b[1..], c[1..]);
    }
  }

  // One text comes before another if it begins it, or at the first place where they differ has the smaller code unit.
  lemma {:induction false} BeforeIsLexicographic(a: Text, b: Text)
    ensures Before(a, b) <==>
      || a <= b
      || exists i :: 0 <= i < |a| && i < |b| && a[..i] == b[..i] && a[i] < b[i]
  {
    if a == [] || b == [] {
    } else {
      BeforeIsLexicographic(a[1..], b[1..]);
      assert a == [a[0]] + a[1..] && b == [b[0]] + b[1..];
      if a[0] == b[0] {
        assert a <= b <==> a[1..] <= b[1..];
        forall i | 0 <= i < |a[1..]| && i < |b[1..]| && a[1..][..i] == b[1..][..i] && a[1..][i] < b[1..][i]
          ensures a[..i + 1] == b[..i + 1] && a[i + 1] < b[i + 1]
        {
          assert a[..i + 1] == [a[0]] + a[1..][..i] && b[..i + 1] == [b[0]] + b[1..][..i];
        }
        forall i | 0 <= i < |a| && i < |b| && a[..i] == b[..i] && a[i] < b[i]
          ensures i > 0 && a[1..][..i - 1] == b[1..][..i - 1] && a[1..][i - 1] < b[1..][i - 1]
        {
          assert a[1..][..i - 1] == a[..i][1..] && b[1..][..i - 1] == b[..i][1..];
        }
      } else {
        assert a[..0] == b[..0];
        forall i | 0 < i < |a| && i < |b|
          ensures a[..i] != b[..i]
        {
          assert a[..i][0] == a[0] && b[..i][0] == b[0];
        }
      }
    }
  }

  function Insert(p: Param, sorted: seq<Param>): seq<Param> {
    if sorted == [] || Before(p.key, sorted[0].key) then [p] + sorted else [sorted[0]] + Insert(p, sorted[1..])
  }

  function Sort(params: seq<Param>): seq<Param> {
    if params == [] then [] else Insert(params[0], Sort(params[1..]))
  }

  ghost predicate Sorted(params: seq<Param>) {
    forall i, j | 0 <= i < j < |params| :: Before(params[i].key, params[j].key)
  }

  lemma {:induction false} InsertSorts(p: Param, sorted: seq<Param>)
    requires Sorted(sorted)
    ensures Sorted(Insert(p, sorted)) && multiset(Insert(p, sorted)) == multiset(sorted) + multiset{p}
  {
    if sorted == [] {
    } else {
      assert sorted == [sorted[0]] + sorted[1..];
      if Before(p.key, sorted[0].key) {
        forall j | 0 <= j < |sorted|
          ensures Before(p.key, sorted[j].key)
        {
          if j > 0 {
            BeforeIsTransitive(p.key, sorted[0].key, sorted[j].key);
          }
        }
      } else {
        InsertSorts(p, sorted[1..]);
        BeforeIsTotal(p.key, sorted[0].key);
        var rest := Insert(p, sorted[1..]);
        forall j | 0 <= j < |rest|
          ensures Before(sorted[0].key, rest[j].key)
        {
          assert rest[j] in multiset(rest);
          assert rest[j] == p || rest[j] in sorted[1..];
        }
      }
    }
  }

  lemma {:induction false} SortSorts(params: seq<Param>)
    ensures Sorted(Sort(params)) && multiset(Sort(params)) == multiset(params)
  {
    if params == [] {
    } else {
      SortSorts(params[1..]);
      InsertSorts(params[0], Sort(params[1..]));
      assert params == [params[0]] + params[1..];
    }
  }

  // ----- The query and its reading -----

  function EncodeParam(p: Param): Text {
    Encode(p.key, true) + [EQUALS] + Encode(p.value, true)
  }

  function EncodeAll(params: seq<Param>): seq<Text> {
    if params == [] then [] else [EncodeParam(params[0])] + EncodeAll(params[1..])
  }

  // canonicalQueryString
  function CanonicalQuery(params: seq<Param>): Text {
    Join(EncodeAll(Sort(params)), AMPERSAND)
  }

  function ReadParam(piece: Text): Option<Param> {
    var parts := SplitOn(piece, EQUALS);
    if |parts| != 2 || Decode(parts[0]).None? || Decode(parts[1]).None? then None
    else Some(Param(Decode(parts[0]).value, Decode(parts[1]).value))
  }

  function ReadAll(pieces: seq<Text>): Option<seq<Param>> {
    if pieces == [] then Some([])
    else
      var first, rest := ReadParam(pieces[0]), ReadAll(pieces[1..]);
      if first.Some? && rest.Some? then Some([first.value] + rest.value) else None
  }

  function ReadQuery(query: Text): Option<seq<Param>> {
    ReadAll(SplitOn(query, AMPERSAND))
  }

  lemma {:induction false} HexDigitsAreDigits(n: nat)
    ensures forall i | 0 <= i < |HexDigits(n)| :: Alphanumeric(HexDigits(n)[i])
  {
    if n >= 16 {
      HexDigitsAreDigits(n / 16);
    }
  }

  // Encoded text has no separator in it, whatever it encodes.
  lemma {:induction false} EncodedHasNoSeparator(value: Text)
    ensures AMPERSAND !in Encode(value, true) && EQUALS !in Encode(value, true)
  {
    if value == [] {
    } else {
      HexDigitsAreDigits(value[0]);
      EncodedHasNoSeparator(value[1..]);
    }
  }

  lemma SplitReadsPieces(pieces: seq<Text>)
    requires pieces != [] && (forall i | 0 <= i < |pieces| :: AMPERSAND !in pieces[i])
    ensures SplitOn(Join(pieces, AMPERSAND), AMPERSAND) == pieces
  {
    var front, last := pieces[..|pieces| - 1], pieces[|pieces| - 1];
    assert pieces == front + [last];
    SplitUndoesJoin(front, last, AMPERSAND);
    SplitWhole(last, AMPERSAND);
  }

  ghost predicate OneByteParam(p: Param) {
    OneByte(p.key) && OneByte(p.value)
  }

  lemma ReadEncodedParam(p: Param)
    ensures AMPERSAND !in EncodeParam(p)
    ensures ReadParam(EncodeParam(p)).Some?
    ensures ReadParam(EncodeParam(p)) == Some(p) <==> OneByteParam(p)
  {
    EncodedHasNoSeparator(p.key);
    EncodedHasNoSeparator(p.value);
    SplitAtSeparator(Encode(p.key, true), EQUALS, Encode(p.value, true));
    SplitWhole(Encode(p.value, true), EQUALS);
    assert [Encode(p.key, true)] + [Encode(p.value, true)] == [Encode(p.key, true), Encode(p.value, true)];
    DecodeAfterEncode(p.key, true);
    DecodeAfterEncode(p.value, true);
  }

  lemma {:induction false} ReadEncodedParams(params: seq<Param>)
    ensures |EncodeAll(params)| == |params|
    ensures forall i | 0 <= i < |params| :: AMPERSAND !in EncodeAll(params)[i]
    ensures ReadAll(EncodeAll(params)).Some? && |ReadAll(EncodeAll(params)).value| == |params|
    ensures ReadAll(EncodeAll(params)) == Some(params) <==> forall i | 0 <= i < |params| :: OneByteParam(params[i])
  {
    if params == [] {
    } else {
      var first, rest := params[0], params[1..];
      ReadEncodedParam(first);
      ReadEncodedParams(rest);
      var read := ReadAll(EncodeAll(rest)).value;
      assert EncodeAll(params)[1..] == EncodeAll(rest);
      assert ReadAll(EncodeAll(params)).value == [ReadParam(EncodeParam(first)).value] + read;
      SameCons(ReadParam(EncodeParam(first)).value, read, params);
      assert forall i | 0 < i < |params| :: params[i] == rest[i - 1];
    }
  }

  lemma SameCons(p: Param, rest: seq<Param>, params: seq<Param>)
    requires params != []
    ensures [p] + rest == params <==> p == params[0] && rest == params[1..]
  {
    assert params == [params[0]] + params[1..];
    assert ([p] + rest)[1..] == rest && ([p] + rest)[0] == p;
  }

  // Reading the canonical query gives back the sorted parameters, each exactly once,
  // if and only if every key and value is made of code units below 256.
  lemma QueryRoundTripIff(params: seq<Param>)
    requires params != []
    ensures ReadQuery(CanonicalQuery(params)) == Some(Sort(params)) <==> forall p | p in params :: OneByteParam(p)
    ensures Sorted(Sort(params)) && multiset(Sort(params)) == multiset(params)
  {
    SortSorts(params);
    var sorted := Sort(params);
    assert |multiset(params)| == |params| && |multiset(sorted)| == |sorted|;
    ReadEncodedParams(sorted);
    SplitReadsPieces(EncodeAll(sorted));
    forall p
      ensures p in params <==> p in sorted
    {
      assert p in params <==> p in multiset(params);
      assert p in sorted <==> p in multiset(sorted);
    }
    assert (forall i | 0 <= i < |sorted| :: OneByteParam(sorted[i])) <==> (forall p | p in sorted :: OneByteParam(p));
  }

  // ----- Object keys -----

  predicate Space(u: Unit) {
    9 <= u <= 13 || u == 32 || u == 160 || u == 0x1680 || 0x2000 <= u <= 0x200A || u == 0x2028 || u == 0x2029
    || u == 0x202F || u == 0x205F || u == 0x3000 || u == 0xFEFF
  }

  predicate FileChar(u: Unit) {
    Alphanumeric(u) || u == 46 || u == 95 || u == HYPHEN
  }

  // Each run of white space becomes one hyphen.
  function DashSpaces(name: Text): Text {
    if name == [] then []
    else if !Space(name[0]) then [name[0]] + DashSpaces(name[1..])
    else if |name| > 1 && Space(name[1]) then DashSpaces(name[1..])
    else [HYPHEN] + DashSpaces(name[1..])
  }

  // The white space of ECMAScript, line ends included.
  const WHITE_SPACE: set<Unit> := {
    9, 10, 11, 12, 13, 32, 160, 5760, 8192, 8193, 8194, 8195, 8196, 8197, 8198, 8199, 8200, 8201, 8202,
    8232, 8233, 8239, 8287, 12288, 65279}

  ghost predicate AllSpace(text: Text) {
    forall i | 0 <= i < |text| :: text[i] in WHITE_SPACE
  }

  ghost predicate NoSpace(text: Text) {
    forall i | 0 <= i < |text| :: text[i] !in WHITE_SPACE
  }

  lemma SpaceIsWhiteSpace(u: Unit)
    ensures Space(u) <==> u in WHITE_SPACE
  {
  }

  // A text without white space stays, a run of white space is one hyphen, and what follows a text is treated on its
  // own unless a run goes on.
  lemma {:induction false} DashLaws(first: Text, second: Text)
    ensures NoSpace(first) ==> DashSpaces(first) == first
    ensures first != [] && AllSpace(first) ==> DashSpaces(first) == [HYPHEN]
    ensures first == [] || second == [] || first[|first| - 1] !in WHITE_SPACE || second[0] !in WHITE_SPACE ==>
      DashSpaces(first + second) == DashSpaces(first) + DashSpaces(second)
  {
    if first == [] {
      assert first + second == second;
    } else {
      var rest := first[1..];
      DashLaws(rest, second);
      assert first == [first[0]] + rest;
      assert (first + second)[1..] == rest + second;
      SpaceIsWhiteSpace(first[0]);
      assert NoSpace(first) ==> NoSpace(rest) && first[0] !in WHITE_SPACE;
      assert AllSpace(first) ==> AllSpace(rest) && first[0] in WHITE_SPACE;
      if |first| > 1 {
        SpaceIsWhiteSpace(first[1]);
        assert (first + second)[1] == first[1];
      } else if second != [] {
        SpaceIsWhiteSpace(second[0]);
        assert (first + second)[1] == second[0];
      }
    }
  }

  // Letters, digits, dot, underscore and hyphen stay in order, everything else goes.
  lemma {:induction false} KeepLaws(first: Text, second: Text)
    ensures KeepFileChars(first + second) == KeepFileChars(first) + KeepFileChars(second)
    ensures |first| == 1 ==>
      var u := first[0];
      KeepFileChars(first)
      == if 48 <= u <= 57 || 65 <= u <= 90 || 97 <= u <= 122 || u == 46 || u == 95 || u == 45 then first else []
  {
    if first == [] {
      assert first + second == second;
    } else {
      assert (first + second)[1..] == first[1..] + second;
      KeepLaws(first[1..], second);
    }
    if |first| == 1 {
      assert first[1..] == [] && first == [first[0]];
    }
  }

  function KeepFileChars(name: Text): Text {
    if name == [] then []
    else if FileChar(name[0]) then [name[0]] + KeepFileChars(name[1..])
    else KeepFileChars(name[1..])
  }

  function SanitizeFileName(name: Text): Text {
    KeepFileChars(DashSpaces(name))
  }

  function ObjectKey(folder: Text, uuid: Text, fileName: Text): Text {
    folder + [SLASH] + uuid + [HYPHEN] + SanitizeFileName(fileName)
  }

  ghost predicate Safe(name: Text) {
    forall i | 0 <= i < |name| :: FileChar(name[i])
  }

  lemma {:induction false} KeptCharsAreSafe(name: Text)
    ensures Safe(KeepFileChars(name))
  {
    if name == [] {
    } else {
      KeptCharsAreSafe(name[1..]);
    }
  }

  lemma {:induction false} SafeNamesStay(name: Text)
    requires Safe(name)
    ensures SanitizeFileName(name) == name
  {
    if name == [] {
    } else {
      SafeNamesStay(name[1..]);
      assert name == [name[0]] + name[1..];
      assert DashSpaces(name)[1..] == DashSpaces(name[1..]);
    }
  }

  // A sanitized name is plain, and sanitizing it again changes nothing.
  lemma SanitizingIsIdempotent(name: Text)
    ensures Safe(SanitizeFileName(name))
    ensures SanitizeFileName(SanitizeFileName(name)) == SanitizeFileName(name)
  {
    KeptCharsAreSafe(DashSpaces(name));
    SafeNamesStay(SanitizeFileName(name));
  }

  ghost predicate Plain(text: Text) {
    forall i | 0 <= i < |text| :: Kept(text[i], false)
  }

  lemma {:induction false} UnchangedIff(value: Text)
    ensures |Encode(value, false)| >= |value|
    ensures Encode(value, false) == value <==> Plain(value)
    ensures !Plain(value) ==> |Encode(value, false)| > |value|
  {
    if value == [] {
    } else {
      UnitLength(value[0], false);
      UnchangedIff(value[1..]);
      assert value == [value[0]] + value[1..];
      assert forall i | 0 < i < |value| :: value[i] == value[1..][i - 1];
    }
  }

  // The key of an uploaded object goes into the URL unchanged, whatever the file is called,
  // exactly when folder and random id are plain.
  lemma ObjectKeyUnchangedIff(folder: Text, uuid: Text, fileName: Text)
    ensures Encode(ObjectKey(folder, uuid, fileName), false) == ObjectKey(folder, uuid, fileName)
      <==> Plain(folder) && Plain(uuid)
  {
    var key, name := ObjectKey(folder, uuid, fileName), SanitizeFileName(fileName);
    UnchangedIff(key);
    SanitizingIsIdempotent(fileName);
    assert forall i | 0 <= i < |folder| :: key[i] == folder[i];
    assert forall i | 0 <= i < |uuid| :: key[|folder| + 1 + i] == uuid[i];
    assert forall i | 0 <= i < |name| :: key[|folder| + |uuid| + 2 + i] == name[i];
    if Plain(folder) && Plain(uuid) {
      forall i | 0 <= i < |key|
        ensures Kept(key[i], false)
      {
        if i > |folder| + |uuid| + 1 {
          assert key[i] == name[i - |folder| - |uuid| - 2];
        } else if |folder| < i <= |folder| + |uuid| {
          assert key[i] == uuid[i - |folder| - 1];
        }
      }
    }
    if Plain(key) {
      forall i | 0 <= i < |uuid|
        ensures Kept(uuid[i], false)
      {
        assert Kept(key[|folder| + 1 + i], false);
      }
      forall i | 0 <= i < |folder|
        ensures Kept(folder[i], false)
      {
        assert Kept(key[i], false);
      }
    }
  }
}
