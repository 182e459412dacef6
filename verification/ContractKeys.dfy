// Canonical contract keys: a scheme and named segments, each normalised,
// bounded, percent-encoded and joined.
module ContractKeys {
  import opened Outcomes
  import opened PercentEncoding
  import opened Utf16

  // Unicode normalisation with trimming, and lower-casing, kept abstract.
  datatype Normaliser = Normaliser(normal: Text -> Text, lower: Text -> Text)

  // Normalising printable ASCII without blanks changes nothing.
  ghost predicate PlainIsNormal(n: Normaliser) {
    forall t: Text :: (forall i :: 0 <= i < |t| ==> 33 <= t[i] <= 126) ==> n.normal(t) == t
  }

  const COLON: Unit := 58
  const HASH: Unit := 35
  const LIMIT := 512

  predicate Bounded(t: Text) {
    0 < |t| <= LIMIT && 0 !in t
  }

  function Segment(n: Normaliser, value: Text): Result<Text> {
    var t := n.normal(value);
    if !Bounded(t) then Throws
    else match Encode(t) case None => Throws case Some(e) => Ok(e)
  }

  function JoinedSegments(n: Normaliser, values: seq<Text>): Result<Text> {
    if values == [] then Ok([])
    else
      match Segment(n, values[0])
      case Throws => Throws
      case Ok(first) =>
        if |values| == 1 then Ok(first)
        else match JoinedSegments(n, values[1..]) case Throws => Throws case Ok(rest) => Ok(first + [HASH] + rest)
  }

  function ContractKey(n: Normaliser, scheme: Text, values: seq<Text>): Result<Text> {
    match (Segment(n, n.lower(scheme)), JoinedSegments(n, values))
    case (Ok(prefix), Ok(rest)) => Ok(prefix + [COLON] + rest)
    case _ => Throws
  }

  // --- reading keys back -----------------------------------------------------

  function UpTo(t: Text, mark: Unit): (k: nat)
    ensures k <= |t|
  {
    if t == [] || t[0] == mark then 0 else 1 + UpTo(t[1..], mark)
  }

  function ParseSegments(t: Text): Option<seq<Text>>
    decreases |t|
  {
    if t == [] then Some([])
    else
      var k := UpTo(t, HASH);
      match Decode(t[..k])
      case None => None
      case Some(first) =>
        if k == |t| then Some([first])
        else match ParseSegments(t[k + 1..]) case None => None case Some(rest) => Some([first] + rest)
  }

  datatype ParsedKey = ParsedKey(scheme: Text, segments: seq<Text>)

  function ParseKey(t: Text): Option<ParsedKey> {
    var k := UpTo(t, COLON);
    if k == |t| then None
    else
      match (Decode(t[..k]), ParseSegments(t[k + 1..]))
      case (Some(scheme), Some(segments)) => Some(ParsedKey(scheme, segments))
      case _ => None
  }

  lemma {:induction false} UpToMark(a: Text, mark: Unit, b: Text)
    requires mark !in a
    ensures UpTo(a + [mark] + b, mark) == |a| && UpTo(a, mark) == |a|
  {
    if a != [] {
      UpToMark(a[1..], mark, b);
      assert (a + [mark] + b)[1..] == a[1..] + [mark] + b;
    } else {
      assert (a + [mark] + b)[0] == mark;
    }
  }

  function Normals(n: Normaliser, values: seq<Text>): seq<Text> {
    seq(|values|, i requires 0 <= i < |values| => n.normal(values[i]))
  }

  lemma SegmentIsDecodable(n: Normaliser, value: Text)
    requires Segment(n, value).Ok?
    ensures Segment(n, value).value != [] && COLON !in Segment(n, value).value && HASH !in Segment(n, value).value
    ensures Decode(Segment(n, value).value) == Some(n.normal(value))
    ensures forall i :: 0 <= i < |Segment(n, value).value| ==> 33 <= Segment(n, value).value[i] <= 126
  {
    hide Encode, Decode;
    EncodingIsDecodable(n.normal(value));
    var e := Segment(n, value).value;
    forall i | 0 <= i < |e| ensures 33 <= e[i] <= 126 && e[i] != COLON && e[i] != HASH {
      assert Plain(e[i]);
    }
  }

  lemma {:induction false} SegmentsAreDecodable(n: Normaliser, values: seq<Text>)
    requires JoinedSegments(n, values).Ok?
    ensures ParseSegments(JoinedSegments(n, values).value) == Some(Normals(n, values))
    ensures forall i :: 0 <= i < |JoinedSegments(n, values).value| ==> 33 <= JoinedSegments(n, values).value[i] <= 126
    ensures values != [] ==> JoinedSegments(n, values).value != []
  {
    hide Segment, Decode;
    if values == [] {
      assert Normals(n, values) == [];
    } else {
      SegmentIsDecodable(n, values[0]);
      var first := Segment(n, values[0]).value;
      UpToMark(first, HASH, []);
      if |values| == 1 {
        assert first[..|first|] == first;
        assert Normals(n, values) == [n.normal(values[0])];
      } else {
        SegmentsAreDecodable(n, values[1..]);
        var rest := JoinedSegments(n, values[1..]).value;
        var t := first + [HASH] + rest;
        UpToMark(first, HASH, rest);
        assert t[..|first|] == first && t[|first| + 1..] == rest;
        assert Normals(n, values) == [n.normal(values[0])] + Normals(n, values[1..]);
      }
    }
  }

  // A key tells its normalised scheme and its normalised segments.
  lemma KeyIsDecodable(n: Normaliser, scheme: Text, values: seq<Text>)
    requires ContractKey(n, scheme, values).Ok?
    ensures ParseKey(ContractKey(n, scheme, values).value)
         == Some(ParsedKey(n.normal(n.lower(scheme)), Normals(n, values)))
    ensures forall i :: 0 <= i < |ContractKey(n, scheme, values).value| ==>
              33 <= ContractKey(n, scheme, values).value[i] <= 126
  {
    hide Segment, JoinedSegments, ParseSegments, Decode, Normals;
    SegmentIsDecodable(n, n.lower(scheme));
    SegmentsAreDecodable(n, values);
    var prefix, rest := Segment(n, n.lower(scheme)).value, JoinedSegments(n, values).value;
    var t := prefix + [COLON] + rest;
    UpToMark(prefix, COLON, rest);
    assert t[..|prefix|] == prefix && t[|prefix| + 1..] == rest;
  }

  // Equal keys come from equal normalised schemes and segment lists.
  lemma KeysAreInjective(n: Normaliser, scheme: Text, values: seq<Text>, scheme': Text, values': seq<Text>)
    requires ContractKey(n, scheme, values).Ok? && ContractKey(n, scheme', values').Ok?
    ensures ContractKey(n, scheme, values) == ContractKey(n, scheme', values')
            <==> n.normal(n.lower(scheme)) == n.normal(n.lower(scheme')) && Normals(n, values) == Normals(n, values')
  {
    hide ParseKey, JoinedSegments;
    KeyIsDecodable(n, scheme, values);
    KeyIsDecodable(n, scheme', values');
    if n.normal(n.lower(scheme)) == n.normal(n.lower(scheme')) && Normals(n, values) == Normals(n, values') {
      JoinedByNormals(n, values, values');
    }
  }

  lemma {:induction false} JoinedByNormals(n: Normaliser, values: seq<Text>, values': seq<Text>)
    requires Normals(n, values) == Normals(n, values')
    ensures JoinedSegments(n, values) == JoinedSegments(n, values')
  {
    hide Encode;
    assert |values| == |Normals(n, values)| == |values'|;
    if values != [] {
      assert Normals(n, values)[0] == n.normal(values[0]) && Normals(n, values')[0] == n.normal(values'[0]);
      assert Normals(n, values[1..]) == Normals(n, values)[1..];
      assert Normals(n, values'[1..]) == Normals(n, values')[1..];
      JoinedByNormals(n, values[1..], values'[1..]);
    }
  }

  // --- nested database keys --------------------------------------------------

  function Ascii(s: string): Text
    requires forall i :: 0 <= i < |s| ==> s[i] as int < 0x80
  {
    seq(|s|, i requires 0 <= i < |s| => s[i] as int)
  }

  const TABLE_SCHEME: Text := Ascii("database-table-v1")
  const COLUMN_SCHEME: Text := Ascii("database-column-v1")

  function TableKey(n: Normaliser, namespace: Text, schema: Text, table: Text): Result<Text> {
    ContractKey(n, TABLE_SCHEME, [namespace, schema, table])
  }

  function ColumnKey(n: Normaliser, tableKey: Text, column: Text): Result<Text> {
    ContractKey(n, COLUMN_SCHEME, [tableKey, column])
  }

  ghost predicate LowerCaseIsKept(n: Normaliser) {
    n.lower(TABLE_SCHEME) == TABLE_SCHEME && n.lower(COLUMN_SCHEME) == COLUMN_SCHEME
  }

  lemma TwoNormals(n: Normaliser, a: Text, b: Text, a': Text, b': Text)
    requires Normals(n, [a, b]) == Normals(n, [a', b'])
    ensures n.normal(a) == n.normal(a') && n.normal(b) == n.normal(b')
  {
    assert Normals(n, [a, b])[0] == Normals(n, [a', b'])[0] && Normals(n, [a, b])[1] == Normals(n, [a', b'])[1];
  }

  lemma ThreeNormals(n: Normaliser, a: Text, b: Text, c: Text, a': Text, b': Text, c': Text)
    requires Normals(n, [a, b, c]) == Normals(n, [a', b', c'])
    ensures n.normal(a) == n.normal(a') && n.normal(b) == n.normal(b') && n.normal(c) == n.normal(c')
  {
    assert Normals(n, [a, b, c])[0] == Normals(n, [a', b', c'])[0];
    assert Normals(n, [a, b, c])[1] == Normals(n, [a', b', c'])[1];
    assert Normals(n, [a, b, c])[2] == Normals(n, [a', b', c'])[2];
  }

  // A column key determines its namespace, schema, table and column.
  lemma ColumnKeyTellsAll(n: Normaliser, namespace: Text, schema: Text, table: Text, column: Text,
                          namespace': Text, schema': Text, table': Text, column': Text)
    requires PlainIsNormal(n)
    requires TableKey(n, namespace, schema, table).Ok? && TableKey(n, namespace', schema', table').Ok?
    requires var key := ColumnKey(n, TableKey(n, namespace, schema, table).value, column);
             key.Ok? && key == ColumnKey(n, TableKey(n, namespace', schema', table').value, column')
    ensures n.normal(namespace) == n.normal(namespace') && n.normal(schema) == n.normal(schema')
    ensures n.normal(table) == n.normal(table') && n.normal(column) == n.normal(column')
  {
    hide ContractKey, Normals;
    var t, t' := TableKey(n, namespace, schema, table).value, TableKey(n, namespace', schema', table').value;
    KeyIsDecodable(n, TABLE_SCHEME, [namespace, schema, table]);
    KeyIsDecodable(n, TABLE_SCHEME, [namespace', schema', table']);
    assert n.normal(t) == t && n.normal(t') == t';
    KeysAreInjective(n, COLUMN_SCHEME, [t, column], COLUMN_SCHEME, [t', column']);
    TwoNormals(n, t, column, t', column');
    KeysAreInjective(n, TABLE_SCHEME, [namespace, schema, table], TABLE_SCHEME, [namespace', schema', table']);
    ThreeNormals(n, namespace, schema, table, namespace', schema', table');
  }

  lemma TwoSegments(n: Normaliser, a: Text, b: Text)
    ensures JoinedSegments(n, [a, b])
            == if Segment(n, a).Ok? && Segment(n, b).Ok?
               then Ok(Segment(n, a).value + [HASH] + Segment(n, b).value) else Throws
  {
    hide Segment;
    assert [a, b][1..] == [b];
    assert JoinedSegments(n, [b]) == Segment(n, b);
  }

  lemma ThreeSegments(n: Normaliser, a: Text, b: Text, c: Text)
    requires JoinedSegments(n, [a, b, c]).Ok?
    ensures Segment(n, a).Ok? && Segment(n, b).Ok? && Segment(n, c).Ok?
    ensures |JoinedSegments(n, [a, b, c]).value|
         == |Segment(n, a).value| + |Segment(n, b).value| + |Segment(n, c).value| + 2
  {
    hide Segment;
    assert [a, b, c][1..] == [b, c];
    TwoSegments(n, b, c);
  }

  lemma PlainSegment(n: Normaliser, t: Text)
    requires PlainIsNormal(n) && (forall i :: 0 <= i < |t| ==> 33 <= t[i] <= 126) && t != []
    ensures Segment(n, t).Ok? <==> |t| <= LIMIT
  {
    hide Encode;
    AsciiIsEncodable(t);
  }

  lemma NestedKeyFailsExactly(n: Normaliser, scheme: Text, t: Text, value: Text)
    requires PlainIsNormal(n) && (forall i :: 0 <= i < |t| ==> 33 <= t[i] <= 126) && t != []
    requires Segment(n, n.lower(scheme)).Ok? && Segment(n, value).Ok?
    ensures ContractKey(n, scheme, [t, value]).Throws? <==> |t| > LIMIT
  {
    hide Segment, JoinedSegments;
    PlainSegment(n, t);
    TwoSegments(n, t, value);
  }

  lemma SchemesAreAccepted(n: Normaliser)
    requires PlainIsNormal(n) && LowerCaseIsKept(n)
    ensures Segment(n, n.lower(TABLE_SCHEME)).Ok? && |Segment(n, n.lower(TABLE_SCHEME)).value| >= 17
    ensures Segment(n, n.lower(COLUMN_SCHEME)).Ok?
  {
    hide Encode, PlainIsNormal;
    SchemeTexts();
    PlainSegment(n, TABLE_SCHEME);
    PlainSegment(n, COLUMN_SCHEME);
    assert n.normal(TABLE_SCHEME) == TABLE_SCHEME by { PlainStays(n, TABLE_SCHEME); }
    EncodingIsNoShorter(TABLE_SCHEME);
  }

  lemma PlainStays(n: Normaliser, t: Text)
    requires PlainIsNormal(n) && forall i :: 0 <= i < |t| ==> 33 <= t[i] <= 126
    ensures n.normal(t) == t
  {
  }

  lemma SchemeTexts()
    ensures |TABLE_SCHEME| == 17 && |COLUMN_SCHEME| == 18
    ensures forall i :: 0 <= i < |TABLE_SCHEME| ==> 33 <= TABLE_SCHEME[i] <= 126
    ensures forall i :: 0 <= i < |COLUMN_SCHEME| ==> 33 <= COLUMN_SCHEME[i] <= 126
  {
  }

  // A table whose own key is accepted has no column keys exactly when that
  // key is longer than one segment may be.
  lemma ColumnKeysFailExactly(n: Normaliser, namespace: Text, schema: Text, table: Text, column: Text)
    requires PlainIsNormal(n) && LowerCaseIsKept(n)
    requires TableKey(n, namespace, schema, table).Ok? && Segment(n, column).Ok?
    ensures ColumnKey(n, TableKey(n, namespace, schema, table).value, column).Throws?
            <==> |TableKey(n, namespace, schema, table).value| > LIMIT
  {
    hide Segment, JoinedSegments, PlainIsNormal;
    KeyIsDecodable(n, TABLE_SCHEME, [namespace, schema, table]);
    SchemesAreAccepted(n);
    NestedKeyFailsExactly(n, COLUMN_SCHEME, TableKey(n, namespace, schema, table).value, column);
  }

  // So names that are all within their limits can leave a table without any.
  lemma LongNamesHaveNoColumns(n: Normaliser, namespace: Text, schema: Text, table: Text, column: Text)
    requires PlainIsNormal(n) && LowerCaseIsKept(n) && TableKey(n, namespace, schema, table).Ok?
    requires |n.normal(namespace)| + |n.normal(schema)| + |n.normal(table)| > 492
    ensures ColumnKey(n, TableKey(n, namespace, schema, table).value, column).Throws?
  {
    hide JoinedSegments, Encode, PlainIsNormal;
    ThreeSegments(n, namespace, schema, table);
    EncodingIsNoShorter(n.normal(namespace));
    EncodingIsNoShorter(n.normal(schema));
    EncodingIsNoShorter(n.normal(table));
    SchemesAreAccepted(n);
    if Segment(n, column).Ok? {
      ColumnKeysFailExactly(n, namespace, schema, table, column);
    } else {
      TwoSegments(n, TableKey(n, namespace, schema, table).value, column);
    }
  }

  const LONG_NAME: Text := seq(170, _ => 97)

  // For example three names of 170 letters each.
  lemma ThreeLongNames(n: Normaliser, column: Text)
    requires PlainIsNormal(n) && LowerCaseIsKept(n)
    ensures TableKey(n, LONG_NAME, LONG_NAME, LONG_NAME).Ok?
    ensures ColumnKey(n, TableKey(n, LONG_NAME, LONG_NAME, LONG_NAME).value, column).Throws?
  {
    hide PlainIsNormal, Segment, ColumnKey;
    var t := LONG_NAME;
    PlainSegment(n, t);
    SchemesAreAccepted(n);
    assert [t, t, t][1..] == [t, t];
    TwoSegments(n, t, t);
    assert TableKey(n, t, t, t).Ok?;
    PlainStays(n, t);
    LongNamesHaveNoColumns(n, t, t, t, column);
  }

  // --- when there is a key at all ---------------------------------------------------

  // A text can be part of a key: its normal form is not empty, has at most 512
  // units, holds no NUL and no surrogate without its partner.
  ghost predicate CanBePart(n: Normaliser, t: Text) {
    var normal := n.normal(t);
    normal != [] && |normal| <= 512 && (forall u :: u in normal ==> u != 0) && Partnered(normal)
  }

  ghost predicate Partnered(t: Text) {
    forall i :: 0 <= i < |t| ==> PartneredAt(t, i)
  }

  ghost predicate PartneredAt(t: Text, i: int)
    requires 0 <= i < |t|
  {
    && (0xD800 <= t[i] < 0xDC00 ==> i + 1 < |t| && 0xDC00 <= t[i + 1] < 0xE000)
    && (0xDC00 <= t[i] < 0xE000 ==> i > 0 && 0xD800 <= t[i - 1] < 0xDC00)
  }

  lemma {:induction false} PartneredIsEncodable(t: Text)
    ensures Scalars(t).Some? <==> Partnered(t)
    decreases |t|
  {
    hide Partnered;
    if t == [] {
      NothingToPartner();
    } else if !High(t[0]) && !Low(t[0]) {
      PartneredIsEncodable(t[1..]);
      PartneredAfter(t, 1);
    } else if High(t[0]) && |t| > 1 && Low(t[1]) {
      PartneredIsEncodable(t[2..]);
      PartneredAfter(t, 2);
    } else {
      NotPartnered(t);
    }
  }

  lemma NothingToPartner()
    ensures Partnered([])
  {
  }

  lemma NotPartnered(t: Text)
    requires t != [] && !PartneredAt(t, 0)
    ensures !Partnered(t)
  {
  }

  lemma PartneredAfter(t: Text, k: nat)
    requires 0 < k <= |t| && !High(t[k - 1]) && forall i :: 0 <= i < k ==> PartneredAt(t, i)
    ensures Partnered(t) <==> Partnered(t[k..])
  {
    var rest := t[k..];
    forall i | 0 <= i < |rest| ensures PartneredAt(rest, i) <==> PartneredAt(t, i + k) {
      assert rest[i] == t[i + k];
      assert i + 1 < |rest| ==> rest[i + 1] == t[i + k + 1];
      assert i > 0 ==> rest[i - 1] == t[i + k - 1];
    }
    hide PartneredAt;
    if Partnered(rest) {
      forall i | 0 <= i < |t| ensures PartneredAt(t, i) {
        assert i < k || PartneredAt(rest, i - k);
      }
    }
  }

  lemma SegmentIsPart(n: Normaliser, t: Text)
    ensures Segment(n, t).Ok? <==> CanBePart(n, t)
  {
    PartneredIsEncodable(n.normal(t));
    hide Scalars;
  }

  lemma {:induction false} SegmentsAreParts(n: Normaliser, values: seq<Text>)
    ensures JoinedSegments(n, values).Ok? <==> forall v :: v in values ==> CanBePart(n, v)
  {
    hide Segment, CanBePart;
    if values != [] {
      SegmentIsPart(n, values[0]);
      assert values == [values[0]] + values[1..];
      SegmentsAreParts(n, values[1..]);
    }
  }

  // There is a key exactly when the lower-cased scheme and every segment can be
  // part of one.
  lemma KeyExistsExactly(n: Normaliser, scheme: Text, values: seq<Text>)
    ensures ContractKey(n, scheme, values).Ok?
            <==> CanBePart(n, n.lower(scheme)) && forall v :: v in values ==> CanBePart(n, v)
  {
    hide Segment, CanBePart, JoinedSegments;
    SegmentIsPart(n, n.lower(scheme));
    SegmentsAreParts(n, values);
  }
}
