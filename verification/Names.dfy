/** Resource names: an id is percent-encoded to one path segment (sections 2.1 and 2.3 of RFC 3986), a name lays
    ids out between literal segments, and a dotted shorthand spells the same ids. */
module Names {
  import opened Text
  import opened Utf8

  // ----- percent encoding -----

  predicate Unreserved(c: Byte) {
    'A' <= c <= 'Z' || 'a' <= c <= 'z' || '0' <= c <= '9' || c == '-' || c == '.' || c == '_' || c == '~'
  }

  function HexDigit(n: int): (c: Byte)
    requires 0 <= n < 16
    ensures Unreserved(c)
  {
    if n < 10 then n as char + '0' else (n - 10) as char + 'A'
  }

  /** `to_digit(16)`: either case. */
  function Hex(c: Byte): Option<int> {
    if '0' <= c <= '9' then Some(c as int - '0' as int)
    else if 'A' <= c <= 'F' then Some(c as int - 'A' as int + 10)
    else if 'a' <= c <= 'f' then Some(c as int - 'a' as int + 10)
    else None
  }

  function EncodeByte(c: Byte): Text {
    if Unreserved(c) then [c] else ['%', HexDigit(c as int / 16), HexDigit(c as int % 16)]
  }

  function Encoded(value: Text): Text {
    if value == [] then [] else EncodeByte(value[0]) + Encoded(value[1..])
  }

  predicate Escape(s: Text) {
    |s| >= 3 && s[0] == '%' && Hex(s[1]).Some? && Hex(s[2]).Some?
  }

  function DecodedBytes(s: Text): Text {
    if s == [] then []
    else if Escape(s) then [(Hex(s[1]).value * 16 + Hex(s[2]).value) as char] + DecodedBytes(s[3..])
    else [s[0]] + DecodedBytes(s[1..])
  }

  function Decoded(s: Text): Text {
    Lossy(DecodedBytes(s))
  }

  lemma {:induction false} EncodedHead(s: Text)
    requires s != []
    ensures Encoded(s) == EncodeByte(s[0]) + Encoded(s[1..])
    ensures |s| == 1 ==> Encoded(s[1..]) == []
  {
  }

  lemma {:induction false} HeadOfAppend(a: Text, c: Byte)
    requires a != []
    ensures (a + [c])[0] == a[0] && (a + [c])[1..] == a[1..] + [c]
  {
  }

  lemma {:induction false} EncodedAppend(a: Text, c: Byte)
    ensures Encoded(a + [c]) == Encoded(a) + EncodeByte(c)
  {
    if a == [] {
      EncodedHead([c]);
      EmptyUnit(EncodeByte(c));
    } else {
      var rest := a[1..];
      EncodedAppend(rest, c);
      HeadOfAppend(a, c);
      EncodedHead(a + [c]);
      EncodedHead(a);
      Associate(EncodeByte(a[0]), Encoded(rest), EncodeByte(c));
    }
  }

  /** The encoder's loop. */
  method Encode(value: Text) returns (encoded: Text)
    ensures encoded == Encoded(value)
  {
    encoded := [];
    for k := 0 to |value|
      invariant encoded == Encoded(value[..k])
    {
      EncodedAppend(value[..k], value[k]);
      assert value[..k + 1] == value[..k] + [value[k]];
      if Unreserved(value[k]) {
        encoded := encoded + [value[k]];
      } else {
        encoded := encoded + ['%', HexDigit(value[k] as int / 16), HexDigit(value[k] as int % 16)];
      }
    }
    assert value[..|value|] == value;
  }

  lemma {:induction false} Shift<T>(a: seq<T>, x: T, b: seq<T>)
    ensures (a + [x]) + b == a + ([x] + b)
  {
  }

  /** The decoder's loop, and the lossy reading of what it collects. */
  method Decode(value: Text) returns (id: Text)
    ensures id == Decoded(value)
  {
    var out: Text := [];
    var index := 0;
    while index < |value|
      invariant 0 <= index <= |value|
      invariant out + DecodedBytes(value[index..]) == DecodedBytes(value)
    {
      var rest := value[index..];
      if value[index] == '%' && index + 2 < |value| && Hex(value[index + 1]).Some? && Hex(value[index + 2]).Some? {
        assert rest[3..] == value[index + 3..] && Escape(rest);
        var byte: Byte := (Hex(value[index + 1]).value * 16 + Hex(value[index + 2]).value) as char;
        Shift(out, byte, DecodedBytes(value[index + 3..]));
        out := out + [byte];
        index := index + 3;
      } else {
        assert rest[1..] == value[index + 1..] && !Escape(rest);
        Shift(out, value[index], DecodedBytes(value[index + 1..]));
        out := out + [value[index]];
        index := index + 1;
      }
    }
    assert value[index..] == [];
    EmptyUnit(out);
    id := Lossy(out);
  }

  /** Decoding undoes encoding byte for byte, whatever the bytes are. */
  lemma {:induction false} DecodeEncodeBytes(value: Text)
    ensures DecodedBytes(Encoded(value)) == value
  {
    if value != [] {
      DecodeEncodeBytes(value[1..]);
      var c, rest := value[0], Encoded(value[1..]);
      var s := Encoded(value);
      if Unreserved(c) {
        assert s[1..] == rest;
      } else {
        assert s[3..] == rest;
        assert Escape(s);
      }
    }
  }

  /** `decode(encode(x)) == x` for every string: every id survives its segment. */
  lemma {:induction false} DecodeEncode(id: Text)
    requires Valid(id)
    ensures Decoded(Encoded(id)) == id
  {
    DecodeEncodeBytes(id);
    LossyKeepsValid(id);
  }

  /** An encoded id is one path segment: no slash survives, and nothing but unreserved bytes and `%`. */
  lemma {:induction false} EncodedIsSegment(value: Text)
    ensures forall k :: 0 <= k < |Encoded(value)| ==> Unreserved(Encoded(value)[k]) || Encoded(value)[k] == '%'
    ensures '/' !in Encoded(value)
  {
    if value != [] {
      EncodedIsSegment(value[1..]);
    }
  }

  const UPPER: Text := "0123456789ABCDEF"
  const LOWER: Text := "0123456789abcdef"

  lemma {:induction false} HexDigitIs(n: int)
    requires 0 <= n < 16
    ensures HexDigit(n) == UPPER[n]
  {
    var upper: Text := UPPER;
    assert n < 10 ==> upper[n] as int == n + 48;
    assert n >= 10 ==> upper[n] as int == n + 55;
  }

  /** What encoding adds for one more byte: the byte itself when it is a letter, a digit or one of `-._~`, and
      otherwise a percent sign and its two upper-case hexadecimal digits. */
  lemma {:induction false} EncodedSnoc(front: Text, c: Byte)
    ensures Encoded([]) == []
    ensures Encoded(front + [c]) == Encoded(front) +
      if 'A' <= c <= 'Z' || 'a' <= c <= 'z' || '0' <= c <= '9' || c in {'-', '.', '_', '~'} then [c]
      else ['%', UPPER[c as int / 16], UPPER[c as int % 16]]
  {
    EncodedAppend(front, c);
    HexDigitIs(c as int / 16);
    HexDigitIs(c as int % 16);
  }

  /** A hexadecimal digit, in either case. */
  predicate IsHex(c: Byte, n: int) {
    0 <= n < 16 && (c == UPPER[n] || c == LOWER[n])
  }

  lemma {:induction false} HexIs(c: Byte)
    ensures Hex(c).Some? ==> IsHex(c, Hex(c).value)
    ensures forall n :: IsHex(c, n) ==> Hex(c) == Some(n)
  {
    var upper: Text, lower: Text := UPPER, LOWER;
    forall n | 0 <= n < 16
      ensures upper[n] as int == (if n < 10 then n + 48 else n + 55)
      ensures lower[n] as int == (if n < 10 then n + 48 else n + 87)
    {
    }
  }

  lemma {:induction false} EscapeShape(x: Byte, y: Byte, rest: Text)
    ensures
      var all := ['%', x, y] + rest;
      |all| >= 3 && all[0] == '%' && all[1] == x && all[2] == y && all[3..] == rest
  {
  }

  /** An escape, in either case, is decoded to the byte it spells. */
  lemma {:induction false} EscapeDecodes(x: Byte, y: Byte, n: int, m: int, rest: Text)
    requires IsHex(x, n) && IsHex(y, m)
    ensures DecodedBytes(['%', x, y] + rest) == [(16 * n + m) as char] + DecodedBytes(rest)
  {
    EscapeShape(x, y, rest);
    HexIs(x);
    HexIs(y);
  }

  /** Every other byte stands for itself, and so does a percent sign that starts no escape. */
  lemma {:induction false} ByteDecodes(c: Byte, rest: Text)
    requires c == '%' && |rest| >= 2 ==> (forall n :: !IsHex(rest[0], n)) || (forall n :: !IsHex(rest[1], n))
    ensures DecodedBytes([c] + rest) == [c] + DecodedBytes(rest)
  {
    var all := [c] + rest;
    assert all[1..] == rest;
    if |rest| >= 2 {
      assert all[1] == rest[0] && all[2] == rest[1];
      HexIs(rest[0]);
      HexIs(rest[1]);
    }
  }

  // ----- names laid out by a pattern -----

  /** The number of ids in a pattern: its empty segments. */
  function Placeholders(segments: seq<Text>): nat {
    if segments == [] then 0 else (if segments[0] == [] then 1 else 0) + Placeholders(segments[1..])
  }

  /** A pattern as the resources declare them: at least one segment and no slash inside a literal. */
  predicate Pattern(segments: seq<Text>) {
    segments != [] && forall k :: 0 <= k < |segments| ==> '/' !in segments[k]
  }

  function PathIds(segments: seq<Text>, parts: seq<Text>): Option<seq<Text>>
    requires |segments| == |parts|
  {
    if segments == [] then Some([])
    else if segments[0] != [] && segments[0] != parts[0] then None
    else
      var rest := PathIds(segments[1..], parts[1..]);
      if rest.None? then None
      else if segments[0] == [] then Some([Decoded(parts[0])] + rest.value)
      else rest
  }

  /** The dotted shorthand: the second id takes the dots the others cannot hold. */
  function DottedIds(value: Text, placeholders: nat): Option<seq<Text>>
    requires placeholders >= 1
  {
    var pieces := Split(value, '.');
    if '/' in value then None
    else if |pieces| < placeholders || (exists k :: 0 <= k < |pieces| && pieces[k] == []) then None
    else if placeholders == 1 then if |pieces| == 1 then Some([pieces[0]]) else None
    else
      var middle := |pieces| - (placeholders - 2);
      Some([pieces[0], Join(pieces[1..middle], '.')] + pieces[middle..])
  }

  /** The ids a name spells: its path, or else the dotted shorthand when the resource has one. */
  function IdsOf(value: Text, segments: seq<Text>, alias: Option<nat>): Option<seq<Text>>
    requires alias.Some? ==> alias.value >= 1
  {
    var parts := Split(value, '/');
    if |parts| == |segments| then PathIds(segments, parts)
    else if alias.None? then None
    else DottedIds(value, alias.value)
  }

  lemma {:induction false} PathIdsAppend(segments: seq<Text>, parts: seq<Text>, want: Text, got: Text)
    requires |segments| == |parts|
    ensures PathIds(segments + [want], parts + [got]) ==
            if PathIds(segments, parts).None? || (want != [] && want != got) then None
            else if want == [] then Some(PathIds(segments, parts).value + [Decoded(got)])
            else PathIds(segments, parts)
  {
    var s, p := segments + [want], parts + [got];
    if segments == [] {
      assert s[1..] == [] && p[1..] == [] && s[0] == want && p[0] == got;
      EmptyUnit([Decoded(got)]);
    } else {
      PathIdsAppend(segments[1..], parts[1..], want, got);
      assert s[1..] == segments[1..] + [want] && p[1..] == parts[1..] + [got];
      assert s[0] == segments[0] && p[0] == parts[0];
      var rest := PathIds(segments[1..], parts[1..]);
      if rest.Some? {
        var head, last := [Decoded(parts[0])], [Decoded(got)];
        assert (head + rest.value) + last == head + (rest.value + last);
      }
    }
  }

  /** The parser's loop over segments and parts. */
  method Ids(value: Text, segments: seq<Text>, alias: Option<nat>) returns (r: Option<seq<Text>>)
    requires alias.Some? ==> alias.value >= 1
    ensures r == IdsOf(value, segments, alias)
  {
    var parts := Split(value, '/');
    if |parts| == |segments| {
      var ids: seq<Text> := [];
      for k := 0 to |segments|
        invariant PathIds(segments[..k], parts[..k]) == Some(ids)
      {
        PathIdsAppend(segments[..k], parts[..k], segments[k], parts[k]);
        assert segments[..k + 1] == segments[..k] + [segments[k]] && parts[..k + 1] == parts[..k] + [parts[k]];
        if segments[k] == [] {
          var id := Decode(parts[k]);
          ids := ids + [id];
        } else if segments[k] != parts[k] {
          PathIdsPrefix(segments, parts, k + 1);
          return None;
        }
      }
      assert segments[..|segments|] == segments && parts[..|parts|] == parts;
      return Some(ids);
    }
    r := if alias.None? then None else DottedIds(value, alias.value);
  }

  lemma {:induction false} PathIdsPrefix(segments: seq<Text>, parts: seq<Text>, k: nat)
    requires |segments| == |parts| && k <= |segments|
    requires PathIds(segments[..k], parts[..k]).None?
    ensures PathIds(segments, parts).None?
  {
    if k > 0 {
      assert segments[..k][1..] == segments[1..][..k - 1] && parts[..k][1..] == parts[1..][..k - 1];
      if PathIds(segments[1..][..k - 1], parts[1..][..k - 1]).None? {
        PathIdsPrefix(segments[1..], parts[1..], k - 1);
      }
    }
  }

  /** The segments of a name: each id encoded in its place. */
  function Rendered(segments: seq<Text>, ids: seq<Text>): Option<seq<Text>> {
    if segments == [] then Some([])
    else if segments[0] == [] then
      if ids == [] then None
      else
        var rest := Rendered(segments[1..], ids[1..]);
        if rest.None? then None else Some([Encoded(ids[0])] + rest.value)
    else
      var rest := Rendered(segments[1..], ids);
      if rest.None? then None else Some([segments[0]] + rest.value)
  }

  /** The canonical name of a name or its shorthand. */
  function PatternName(value: Text, segments: seq<Text>, alias: Option<nat>): Option<Text>
    requires alias.Some? ==> alias.value >= 1
  {
    var ids := IdsOf(value, segments, alias);
    if ids.None? then None
    else
      var parts := Rendered(segments, ids.value);
      if parts.None? then None else Some(Join(parts.value, '/'))
  }

  lemma {:induction false} RenderedShape(segments: seq<Text>, ids: seq<Text>)
    requires forall k :: 0 <= k < |segments| ==> '/' !in segments[k]
    ensures Rendered(segments, ids).Some? <==> Placeholders(segments) <= |ids|
    ensures Rendered(segments, ids).Some? ==>
      var parts := Rendered(segments, ids).value;
      |parts| == |segments| && forall k :: 0 <= k < |parts| ==> '/' !in parts[k]
  {
    if segments != [] {
      RenderedShape(segments[1..], if segments[0] == [] && ids != [] then ids[1..] else ids);
      if segments[0] == [] && ids != [] {
        EncodedIsSegment(ids[0]);
      }
    }
  }

  lemma {:induction false} PathIdsOfRendered(segments: seq<Text>, ids: seq<Text>)
    requires forall k :: 0 <= k < |segments| ==> '/' !in segments[k]
    requires Placeholders(segments) <= |ids| && forall k :: 0 <= k < |ids| ==> Valid(ids[k])
    ensures Rendered(segments, ids).Some? && |Rendered(segments, ids).value| == |segments|
    ensures PathIds(segments, Rendered(segments, ids).value) == Some(ids[..Placeholders(segments)])
  {
    RenderedShape(segments, ids);
    if segments != [] {
      var parts := Rendered(segments, ids).value;
      if segments[0] == [] {
        PathIdsOfRendered(segments[1..], ids[1..]);
        DecodeEncode(ids[0]);
        assert parts[1..] == Rendered(segments[1..], ids[1..]).value;
        assert [ids[0]] + ids[1..][..Placeholders(segments[1..])] == ids[..Placeholders(segments)];
      } else {
        PathIdsOfRendered(segments[1..], ids);
        assert parts[1..] == Rendered(segments[1..], ids).value;
      }
    }
  }

  /** The name a builder lays out. */
  ghost function Built(segments: seq<Text>, ids: seq<Text>): Text
    requires Pattern(segments) && Placeholders(segments) == |ids|
  {
    RenderedShape(segments, ids);
    Join(Rendered(segments, ids).value, '/')
  }

  /** Every builder is inverted by its parser, whatever the ids hold. */
  lemma {:induction false} BuiltParses(segments: seq<Text>, ids: seq<Text>, alias: Option<nat>)
    requires Pattern(segments) && Placeholders(segments) == |ids|
    requires forall k :: 0 <= k < |ids| ==> Valid(ids[k])
    requires alias.Some? ==> alias.value >= 1
    ensures IdsOf(Built(segments, ids), segments, alias) == Some(ids)
  {
    RenderedShape(segments, ids);
    PathIdsOfRendered(segments, ids);
    SplitJoin(Rendered(segments, ids).value, '/');
    assert ids[..Placeholders(segments)] == ids;
  }

  /** Different ids never share a name. */
  lemma {:induction false} BuiltInjective(segments: seq<Text>, a: seq<Text>, b: seq<Text>)
    requires Pattern(segments) && Placeholders(segments) == |a| == |b|
    requires forall k :: 0 <= k < |a| ==> Valid(a[k]) && Valid(b[k])
    requires Built(segments, a) == Built(segments, b)
    ensures a == b
  {
    BuiltParses(segments, a, None);
    BuiltParses(segments, b, None);
  }

  /** Every literal of the pattern stands in its place. */
  predicate Fits(segments: seq<Text>, parts: seq<Text>) {
    |segments| == |parts| && forall k :: 0 <= k < |segments| ==> segments[k] == [] || segments[k] == parts[k]
  }

  /** The parts that stand at ids. */
  function Slots(segments: seq<Text>, parts: seq<Text>): seq<Text>
    requires |segments| == |parts|
  {
    if segments == [] then []
    else
      var n := |segments| - 1;
      if segments[n] == [] then Slots(segments[..n], parts[..n]) + [parts[n]] else Slots(segments[..n], parts[..n])
  }

  lemma {:induction false} PathIdsAre(segments: seq<Text>, parts: seq<Text>)
    requires |segments| == |parts|
    ensures PathIds(segments, parts).Some? <==> Fits(segments, parts)
    ensures Fits(segments, parts) ==>
      var ids := PathIds(segments, parts).value;
      |ids| == |Slots(segments, parts)| && forall k :: 0 <= k < |ids| ==> ids[k] == Decoded(Slots(segments, parts)[k])
  {
    if segments != [] {
      var n := |segments| - 1;
      PathIdsAre(segments[..n], parts[..n]);
      PathIdsAppend(segments[..n], parts[..n], segments[n], parts[n]);
      assert segments == segments[..n] + [segments[n]] && parts == parts[..n] + [parts[n]];
      FitsFront(segments, parts);
    }
  }

  lemma {:induction false} FitsFront(segments: seq<Text>, parts: seq<Text>)
    requires |segments| == |parts| > 0
    ensures
      var n := |segments| - 1;
      Fits(segments, parts) <==> Fits(segments[..n], parts[..n]) && (segments[n] == [] || segments[n] == parts[n])
  {
  }

  /** A path form is accepted exactly when it has the pattern's segments and every literal stands in its place, and its
      ids are then the decoded parts between them, in order. */
  lemma {:induction false} ParsesIff(value: Text, segments: seq<Text>)
    ensures
      var parts, ids := Split(value, '/'), IdsOf(value, segments, None);
      && (ids.Some? <==> Fits(segments, parts))
      && (ids.Some? ==>
            |ids.value| == |Slots(segments, parts)|
            && forall k :: 0 <= k < |ids.value| ==> ids.value[k] == Decoded(Slots(segments, parts)[k]))
  {
    if |Split(value, '/')| == |segments| {
      PathIdsAre(segments, Split(value, '/'));
    }
  }

  lemma {:induction false} PathIdsValid(segments: seq<Text>, parts: seq<Text>)
    requires |segments| == |parts| && PathIds(segments, parts).Some?
    ensures |PathIds(segments, parts).value| == Placeholders(segments)
    ensures forall k :: 0 <= k < |PathIds(segments, parts).value| ==> Valid(PathIds(segments, parts).value[k])
  {
    if segments != [] {
      PathIdsValid(segments[1..], parts[1..]);
      LossyIsValid(DecodedBytes(parts[0]));
    }
  }

  lemma {:induction false} DottedLayout(pieces: seq<Text>, placeholders: nat)
    requires 2 <= placeholders <= |pieces|
    requires forall k :: 0 <= k < |pieces| ==> Valid(pieces[k])
    ensures
      var middle := |pieces| - (placeholders - 2);
      var ids := [pieces[0], Join(pieces[1..middle], '.')] + pieces[middle..];
      |ids| == placeholders && forall k :: 0 <= k < placeholders ==> Valid(ids[k])
  {
    var middle := |pieces| - (placeholders - 2);
    var inner, tail := pieces[1..middle], pieces[middle..];
    assert forall k :: 0 <= k < |inner| ==> inner[k] == pieces[k + 1];
    ValidJoin(inner, '.');
    assert forall k :: 0 <= k < |tail| ==> tail[k] == pieces[middle + k];
  }

  lemma {:induction false} DottedIdsAre(value: Text, placeholders: nat, pieces: seq<Text>)
    requires placeholders >= 1 && pieces == Split(value, '.') && DottedIds(value, placeholders).Some?
    ensures |pieces| >= placeholders
    ensures placeholders == 1 ==> DottedIds(value, placeholders) == Some([pieces[0]])
    ensures placeholders >= 2 ==>
      var middle := |pieces| - (placeholders - 2);
      DottedIds(value, placeholders) == Some([pieces[0], Join(pieces[1..middle], '.')] + pieces[middle..])
  {
  }

  lemma {:induction false} DottedIdsValid(value: Text, placeholders: nat)
    requires Valid(value) && placeholders >= 1 && DottedIds(value, placeholders).Some?
    ensures |DottedIds(value, placeholders).value| == placeholders
    ensures forall k :: 0 <= k < placeholders ==> Valid(DottedIds(value, placeholders).value[k])
  {
    var pieces := Split(value, '.');
    JoinSplit(value, '.');
    ValidPieces(value, '.', pieces);
    DottedIdsAre(value, placeholders, pieces);
    if placeholders > 1 {
      DottedLayout(pieces, placeholders);
    }
  }

  /** Canonicalising is idempotent: a name or a shorthand, once canonical, stays put. */
  lemma {:induction false} PatternNameIdempotent(value: Text, segments: seq<Text>, alias: Option<nat>)
    requires Valid(value) && Pattern(segments) && (alias.Some? ==> alias.value >= 1)
    requires PatternName(value, segments, alias).Some?
    ensures PatternName(PatternName(value, segments, alias).value, segments, alias)
         == PatternName(value, segments, alias)
  {
    var ids := IdsOf(value, segments, alias).value;
    if |Split(value, '/')| == |segments| {
      PathIdsValid(segments, Split(value, '/'));
    } else {
      DottedIdsValid(value, alias.value);
    }
    RenderedShape(segments, ids);
    PathIdsOfRendered(segments, ids);
    SplitJoin(Rendered(segments, ids).value, '/');
    RenderedUses(segments, ids);
  }

  lemma {:induction false} RenderedUses(segments: seq<Text>, ids: seq<Text>)
    requires Placeholders(segments) <= |ids|
    ensures Rendered(segments, ids[..Placeholders(segments)]) == Rendered(segments, ids)
  {
    if segments != [] {
      var n := Placeholders(segments);
      if segments[0] == [] {
        RenderedUses(segments[1..], ids[1..]);
        assert ids[..n][1..] == ids[1..][..n - 1];
      } else {
        RenderedUses(segments[1..], ids);
      }
    }
  }

  // ----- the dotted shorthand prints and parses back -----

  /** What the shorthand can spell: dots only inside the second id, no empty piece, no slash. */
  ghost predicate Spellable(ids: seq<Text>)
    requires |ids| >= 2
  {
    && (forall k :: 0 <= k < |ids| && k != 1 ==> '.' !in ids[k] && ids[k] != [])
    && (forall p :: 0 <= p < |Split(ids[1], '.')| ==> Split(ids[1], '.')[p] != [])
    && (forall k :: 0 <= k < |ids| ==> '/' !in ids[k])
  }

  lemma {:induction false} SplitConcat(a: Text, b: Text, sep: Byte)
    ensures Split(a + [sep] + b, sep) == Split(a, sep) + Split(b, sep)
  {
    var s := a + [sep] + b;
    if a == [] {
      assert s[1..] == b;
    } else {
      SplitConcat(a[1..], b, sep);
      assert s[0] == a[0] && s[1..] == a[1..] + [sep] + b;
      SplitHead(a[0], Split(a[1..], sep), Split(b, sep), sep);
    }
  }

  lemma {:induction false} SplitHead(c: Byte, x: seq<Text>, y: seq<Text>, sep: Byte)
    requires x != []
    ensures (x + y)[0] == x[0]
    ensures [[]] + (x + y) == ([[]] + x) + y
    ensures [[c] + x[0]] + (x + y)[1..] == ([[c] + x[0]] + x[1..]) + y
  {
  }

  lemma {:induction false} JoinMembers(pieces: seq<Text>, sep: Byte, c: Byte)
    requires c != sep
    ensures c in Join(pieces, sep) <==> exists k :: 0 <= k < |pieces| && c in pieces[k]
  {
    if |pieces| > 1 {
      JoinMembers(pieces[1..], sep, c);
      assert forall k :: 1 <= k < |pieces| ==> pieces[k] == pieces[1..][k - 1];
    }
  }

  lemma {:induction false} DottedPieces(ids: seq<Text>)
    requires |ids| >= 2 && forall k :: 0 <= k < |ids| && k != 1 ==> '.' !in ids[k]
    ensures Split(Join(ids, '.'), '.') == [ids[0]] + Split(ids[1], '.') + ids[2..]
  {
    SplitAt(ids[0], Join(ids[1..], '.'), '.');
    if |ids| == 2 {
      assert Join(ids[1..], '.') == ids[1];
    } else {
      var tail := ids[2..];
      assert ids[1..][1..] == tail;
      SplitConcat(ids[1], Join(tail, '.'), '.');
      SplitJoin(tail, '.');
    }
  }

  lemma {:induction false} OnePiece(s: Text, sep: Byte)
    ensures |Split(s, sep)| == 1 <==> sep !in s
    ensures sep !in s ==> Split(s, sep) == [s]
  {
    if sep !in s {
      SplitWord(s, sep);
    }
    if |Split(s, sep)| == 1 {
      JoinSplit(s, sep);
    }
  }

  /** One id is its own shorthand exactly when it is not empty and holds neither dots nor slashes. */
  lemma {:induction false} DottedSingleIff(id: Text)
    ensures DottedIds(id, 1) == Some([id]) <==> id != [] && '.' !in id && '/' !in id
  {
    OnePiece(id, '.');
  }

  /** The shorthand of some ids parses back to them exactly when it can spell them. */
  lemma {:induction false} DottedRoundTripIff(ids: seq<Text>)
    requires |ids| >= 2
    ensures DottedIds(Join(ids, '.'), |ids|) == Some(ids) <==> Spellable(ids)
  {
    JoinMembers(ids, '.', '/');
    if Spellable(ids) {
      SpellableParses(ids);
    }
    if DottedIds(Join(ids, '.'), |ids|) == Some(ids) {
      ParsedIsSpellable(ids, Split(Join(ids, '.'), '.'));
    }
  }

  predicate Plain(id: Text) {
    id != [] && '.' !in id && '/' !in id
  }

  lemma {:induction false} JoinTwo(a: Text, b: Text, sep: Byte)
    ensures Join([a, b], sep) == a + [sep] + b
  {
    assert [a, b][1..] == [b];
  }

  /** Where it fails: a dot in the first id moves over into the second. */
  lemma {:induction false} DotMovesOver(a: Text, b: Text, c: Text)
    requires Plain(a) && Plain(b) && Plain(c)
    ensures DottedIds(Join([a + ['.'] + b, c], '.'), 2) == Some([a, b + ['.'] + c])
  {
    var value, rest := Join([a + ['.'] + b, c], '.'), b + ['.'] + c;
    JoinTwo(a + ['.'] + b, c, '.');
    assert value == a + ['.'] + rest;
    SplitAt(a, rest, '.');
    SplitAt(b, c, '.');
    SplitWord(c, '.');
    var pieces := Split(value, '.');
    assert pieces == [a, b, c];
    assert pieces[1..3] == [b, c] && pieces[3..] == [];
    JoinTwo(b, c, '.');
    EmptyUnit([a, rest]);
  }

  lemma {:induction false} Dotted(s: Text, t: Text, dotted: Text)
    requires |s| == |t| == 1 && |dotted| == 3
    requires dotted[0] == s[0] && dotted[1] == '.' && dotted[2] == t[0]
    ensures s + ['.'] + t == dotted
  {
  }

  /** For one, the ids `a.b` and `c` read back as `a` and `b.c`. */
  lemma {:induction false} DottedIdsShift()
    ensures DottedIds(Join(["a.b", "c"], '.'), 2) == Some(["a", "b.c"])
  {
    DotMovesOver("a", "b", "c");
    Dotted("a", "b", "a.b");
    Dotted("b", "c", "b.c");
  }

  lemma {:induction false} SpellableParses(ids: seq<Text>)
    requires |ids| >= 2 && Spellable(ids) && '/' !in Join(ids, '.')
    ensures DottedIds(Join(ids, '.'), |ids|) == Some(ids)
  {
    DottedPieces(ids);
    var second := Split(ids[1], '.');
    var pieces := [ids[0]] + second + ids[2..];
    forall k | 0 <= k < |pieces| ensures pieces[k] != [] {
      if 1 <= k <= |second| {
        assert pieces[k] == second[k - 1];
      } else if k > |second| {
        assert pieces[k] == ids[k - |second| + 1];
      }
    }
    var middle := |pieces| - (|ids| - 2);
    assert pieces[1..middle] == second;
    JoinSplit(ids[1], '.');
    assert [ids[0], ids[1]] + ids[2..] == ids;
  }

  lemma {:induction false} ParsedIsSpellable(ids: seq<Text>, pieces: seq<Text>)
    requires |ids| >= 2 && pieces == Split(Join(ids, '.'), '.')
    requires DottedIds(Join(ids, '.'), |ids|) == Some(ids)
    requires forall k :: 0 <= k < |ids| ==> '/' !in ids[k]
    ensures Spellable(ids)
  {
    var middle := |pieces| - (|ids| - 2);
    assert ids == [pieces[0], Join(pieces[1..middle], '.')] + pieces[middle..];
    forall k | 0 <= k < |ids| && k != 1 ensures '.' !in ids[k] && ids[k] != [] {
      if k > 1 {
        assert ids[k] == pieces[middle + k - 2];
      }
    }
    SplitJoin(pieces[1..middle], '.');
  }

  // ----- the builders -----

  const METASTORE: seq<Text> := ["metastores", ""]
  const CATALOG: seq<Text> := ["catalogs", ""]
  const SCHEMA: seq<Text> := ["catalogs", "", "schemas", ""]
  const TABLE: seq<Text> := ["catalogs", "", "schemas", "", "tables", ""]
  const TABLE_FILE: seq<Text> := TABLE + ["files", ""]
  const COMMIT: seq<Text> := TABLE + ["commits", ""]
  const BLOB: seq<Text> := ["blobs", "", ""]
  const COLUMN: seq<Text> := ["blobs", "", "", "columns", ""]

  function Metastore(metastore: Text): Text {
    "metastores/" + Encoded(metastore)
  }

  function Catalog(catalog: Text): Text {
    "catalogs/" + Encoded(catalog)
  }

  function Schema(catalog: Text, schema: Text): Text {
    Catalog(catalog) + "/schemas/" + Encoded(schema)
  }

  function Table(catalog: Text, schema: Text, table: Text): Text {
    Schema(catalog, schema) + "/tables/" + Encoded(table)
  }

  function TableFileName(table: Text, file: Text): Text {
    table + "/files/" + Encoded(file)
  }

  function TableFile(catalog: Text, schema: Text, table: Text, file: Text): Text {
    TableFileName(Table(catalog, schema, table), file)
  }

  function CommitName(table: Text, commit: Text): Text {
    table + "/commits/" + Encoded(commit)
  }

  function Commit(catalog: Text, schema: Text, table: Text, commit: Text): Text {
    CommitName(Table(catalog, schema, table), commit)
  }

  function Blob(service: Text, locator: Text): Text {
    "blobs/" + Encoded(service) + "/" + Encoded(locator)
  }

  function Column(service: Text, locator: Text, column: Text): Text {
    Blob(service, locator) + "/columns/" + Encoded(column)
  }

  function ParseTable(value: Text): Option<seq<Text>> {
    IdsOf(value, TABLE, Some(3))
  }

  function ParseColumn(value: Text): Option<seq<Text>> {
    IdsOf(value, COLUMN, None)
  }

  function ParseBlob(value: Text): Option<(Text, Text)> {
    var parts := Split(value, '/');
    if |parts| == 3 && parts[0] == "blobs" then Some((Decoded(parts[1]), Decoded(parts[2]))) else None
  }

  function ParseMetastore(value: Text): Option<Text> {
    var parts := Split(value, '/');
    if |parts| == 2 && parts[0] == "metastores" then Some(Decoded(parts[1])) else None
  }

  lemma {:induction false} JoinAppend(pieces: seq<Text>, x: Text, sep: Byte)
    requires pieces != []
    ensures Join(pieces + [x], sep) == Join(pieces, sep) + [sep] + x
  {
    if |pieces| > 1 {
      JoinAppend(pieces[1..], x, sep);
      assert (pieces + [x])[1..] == pieces[1..] + [x];
    } else {
      assert (pieces + [x])[1..] == [x];
    }
  }

  lemma {:induction false} RenderedAppendLiteral(segments: seq<Text>, ids: seq<Text>, literal: Text)
    requires Placeholders(segments) == |ids| && Rendered(segments, ids).Some? && literal != []
    ensures Placeholders(segments + [literal]) == |ids|
    ensures Rendered(segments + [literal], ids) == Some(Rendered(segments, ids).value + [literal])
  {
    var all := segments + [literal];
    if segments == [] {
      assert all[0] == literal && all[1..] == [];
      EmptyUnit([literal]);
    } else {
      var tail, rest := segments[1..], if segments[0] == [] then ids[1..] else ids;
      RenderedAppendLiteral(tail, rest, literal);
      assert all[0] == segments[0] && all[1..] == tail + [literal];
      var head := if segments[0] == [] then Encoded(ids[0]) else segments[0];
      var parts := Rendered(tail, rest).value;
      assert ([head] + parts) + [literal] == [head] + (parts + [literal]);
    }
  }

  lemma {:induction false} RenderedAppendId(segments: seq<Text>, ids: seq<Text>, id: Text)
    requires Placeholders(segments) == |ids| && Rendered(segments, ids).Some?
    ensures Placeholders(segments + [[]]) == |ids| + 1
    ensures Rendered(segments + [[]], ids + [id]) == Some(Rendered(segments, ids).value + [Encoded(id)])
  {
    var empty: Text := [];
    var all, more := segments + [empty], ids + [id];
    if segments == [] {
      assert all[0] == empty && all[1..] == [] && more[0] == id && more[1..] == [];
      EmptyUnit([Encoded(id)]);
    } else {
      var tail, rest := segments[1..], if segments[0] == [] then ids[1..] else ids;
      RenderedAppendId(tail, rest, id);
      assert all[0] == segments[0] && all[1..] == tail + [empty];
      assert if segments[0] == [] then more[0] == ids[0] && more[1..] == rest + [id] else more == rest + [id];
      var head := if segments[0] == [] then Encoded(ids[0]) else segments[0];
      var parts := Rendered(tail, rest).value;
      assert ([head] + parts) + [Encoded(id)] == [head] + (parts + [Encoded(id)]);
    }
  }

  /** Extending a built name by a literal, or by an id. */
  lemma {:induction false} BuiltExtend(segments: seq<Text>, ids: seq<Text>, literal: Text, id: Text)
    requires Pattern(segments) && Placeholders(segments) == |ids|
    requires literal != [] && '/' !in literal
    ensures Pattern(segments + [literal]) && Placeholders(segments + [literal]) == |ids|
    ensures Built(segments + [literal], ids) == Built(segments, ids) + "/" + literal
    ensures Pattern(segments + [[]]) && Placeholders(segments + [[]]) == |ids| + 1
    ensures Built(segments + [[]], ids + [id]) == Built(segments, ids) + "/" + Encoded(id)
  {
    RenderedShape(segments, ids);
    RenderedAppendLiteral(segments, ids, literal);
    RenderedAppendId(segments, ids, id);
    JoinAppend(Rendered(segments, ids).value, literal, '/');
    JoinAppend(Rendered(segments, ids).value, Encoded(id), '/');
  }

  /** One more collection level: `{name}/{literal}/{id}`. */
  lemma {:induction false} BuiltLevel(segments: seq<Text>, ids: seq<Text>, literal: Text, id: Text)
    requires Pattern(segments) && Placeholders(segments) == |ids|
    requires literal != [] && '/' !in literal
    ensures Pattern(segments + [literal, []]) && Placeholders(segments + [literal, []]) == |ids + [id]|
    ensures Built(segments + [literal, []], ids + [id]) == Built(segments, ids) + "/" + literal + "/" + Encoded(id)
  {
    BuiltExtend(segments, ids, literal, id);
    BuiltExtend(segments + [literal], ids, literal, id);
    var empty: Text := [];
    assert segments + [literal] + [empty] == segments + [literal, empty];
  }

  lemma {:induction false} BuiltRoot(literal: Text, id: Text)
    requires literal != [] && '/' !in literal
    ensures Pattern([literal, []]) && Placeholders([literal, []]) == 1
    ensures Built([literal, []], [id]) == literal + "/" + Encoded(id)
  {
    var none: seq<Text> := [];
    var empty: Text := [];
    RenderedAppendLiteral(none, none, literal);
    EmptyUnit([literal]);
    EmptyUnit([id]);
    assert Rendered([literal], none) == Some([literal]);
    RenderedAppendId([literal], none, id);
    assert [literal] + [empty] == [literal, empty];
    JoinAppend([literal], Encoded(id), '/');
  }

  // The builders lay their ids out as their patterns say.

  lemma {:induction false} CatalogIsBuilt(catalog: Text)
    ensures Pattern(CATALOG) && Placeholders(CATALOG) == 1 && Catalog(catalog) == Built(CATALOG, [catalog])
  {
    BuiltRoot("catalogs", catalog);
    assert "catalogs" + "/" == "catalogs/";
  }

  lemma {:induction false} SchemaIsBuilt(catalog: Text, schema: Text)
    ensures Pattern(SCHEMA) && Placeholders(SCHEMA) == 2 && Schema(catalog, schema) == Built(SCHEMA, [catalog, schema])
  {
    CatalogIsBuilt(catalog);
    BuiltLevel(CATALOG, [catalog], "schemas", schema);
    assert SCHEMA == CATALOG + ["schemas", ""];
    assert [catalog] + [schema] == [catalog, schema];
    assert "/" + "schemas" + "/" == "/schemas/";
    Literal(Catalog(catalog), "schemas", "/schemas/", Encoded(schema));
  }

  lemma {:induction false} Literal(name: Text, literal: Text, slashed: Text, id: Text)
    requires "/" + literal + "/" == slashed
    ensures name + "/" + literal + "/" + id == name + slashed + id
  {
    assert name + "/" + literal + "/" == name + ("/" + literal + "/");
  }

  lemma {:induction false} TableIsBuilt(catalog: Text, schema: Text, table: Text)
    ensures Pattern(TABLE) && Placeholders(TABLE) == 3
    ensures Table(catalog, schema, table) == Built(TABLE, [catalog, schema, table])
  {
    SchemaIsBuilt(catalog, schema);
    BuiltLevel(SCHEMA, [catalog, schema], "tables", table);
    assert TABLE == SCHEMA + ["tables", ""];
    assert [catalog, schema] + [table] == [catalog, schema, table];
    assert "/" + "tables" + "/" == "/tables/";
    Literal(Schema(catalog, schema), "tables", "/tables/", Encoded(table));
  }

  lemma {:induction false} MetastoreIsBuilt(metastore: Text)
    ensures Pattern(METASTORE) && Placeholders(METASTORE) == 1
    ensures Metastore(metastore) == Built(METASTORE, [metastore])
  {
    BuiltRoot("metastores", metastore);
    assert "metastores" + "/" == "metastores/";
  }

  lemma {:induction false} TableFileIsBuilt(catalog: Text, schema: Text, table: Text, file: Text)
    ensures Pattern(TABLE_FILE) && Placeholders(TABLE_FILE) == 4
    ensures TableFile(catalog, schema, table, file) == Built(TABLE_FILE, [catalog, schema, table, file])
  {
    TableIsBuilt(catalog, schema, table);
    BuiltLevel(TABLE, [catalog, schema, table], "files", file);
    assert [catalog, schema, table] + [file] == [catalog, schema, table, file];
    assert "/" + "files" + "/" == "/files/";
    Literal(Table(catalog, schema, table), "files", "/files/", Encoded(file));
  }

  lemma {:induction false} CommitIsBuilt(catalog: Text, schema: Text, table: Text, commit: Text)
    ensures Pattern(COMMIT) && Placeholders(COMMIT) == 4
    ensures Commit(catalog, schema, table, commit) == Built(COMMIT, [catalog, schema, table, commit])
  {
    TableIsBuilt(catalog, schema, table);
    BuiltLevel(TABLE, [catalog, schema, table], "commits", commit);
    assert [catalog, schema, table] + [commit] == [catalog, schema, table, commit];
    assert "/" + "commits" + "/" == "/commits/";
    Literal(Table(catalog, schema, table), "commits", "/commits/", Encoded(commit));
  }

  lemma {:induction false} BlobIsBuilt(service: Text, locator: Text)
    ensures Pattern(BLOB) && Placeholders(BLOB) == 2 && Blob(service, locator) == Built(BLOB, [service, locator])
  {
    var empty: Text := [];
    var root: seq<Text> := ["blobs", empty];
    BuiltRoot("blobs", service);
    BuiltExtend(root, [service], "columns", locator);
    assert BLOB == root + [empty];
    assert [service] + [locator] == [service, locator];
    assert Built(root, [service]) == "blobs/" + Encoded(service) by {
      assert "blobs" + "/" == "blobs/";
    }
  }

  lemma {:induction false} ColumnIsBuilt(service: Text, locator: Text, column: Text)
    ensures Pattern(COLUMN) && Placeholders(COLUMN) == 3
    ensures Column(service, locator, column) == Built(COLUMN, [service, locator, column])
  {
    BlobIsBuilt(service, locator);
    BuiltLevel(BLOB, [service, locator], "columns", column);
    assert COLUMN == BLOB + ["columns", ""];
    assert [service, locator] + [column] == [service, locator, column];
    assert "/" + "columns" + "/" == "/columns/";
    Literal(Blob(service, locator), "columns", "/columns/", Encoded(column));
  }

  /** A table name reads back as its ids, even ids that hold slashes, percent signs or dots. */
  lemma {:induction false} TableParses(catalog: Text, schema: Text, table: Text)
    requires Valid(catalog) && Valid(schema) && Valid(table)
    ensures ParseTable(Table(catalog, schema, table)) == Some([catalog, schema, table])
  {
    TableIsBuilt(catalog, schema, table);
    BuiltParses(TABLE, [catalog, schema, table], Some(3));
  }

  predicate AllValid(ids: seq<Text>) {
    forall k :: 0 <= k < |ids| ==> Valid(ids[k])
  }

  /** A table's dotted shorthand is read as well as its path; a column has none. */
  lemma {:induction false} Shorthands(value: Text)
    ensures |Split(value, '/')| != 6 ==> ParseTable(value) == DottedIds(value, 3)
    ensures |Split(value, '/')| != 5 ==> ParseColumn(value) == None
  {
  }

  /** `catalog.schema.table`: what it spells. */
  lemma {:induction false} DottedTableParses(catalog: Text, schema: Text, table: Text)
    requires Spellable([catalog, schema, table])
    ensures ParseTable(Join([catalog, schema, table], '.')) == Some([catalog, schema, table])
  {
    var value := Join([catalog, schema, table], '.');
    DottedRoundTripIff([catalog, schema, table]);
    assert '/' !in value;
    SplitWord(value, '/');
  }

  // No two metastores, catalogs, schemas, tables, files, commits, blobs or columns share a name.

  lemma {:induction false} MetastoreInjective(a: Text, b: Text)
    requires Valid(a) && Valid(b) && Metastore(a) == Metastore(b)
    ensures a == b
  {
    MetastoreIsBuilt(a);
    MetastoreIsBuilt(b);
    BuiltInjective(METASTORE, [a], [b]);
  }

  lemma {:induction false} CatalogInjective(a: Text, b: Text)
    requires Valid(a) && Valid(b) && Catalog(a) == Catalog(b)
    ensures a == b
  {
    CatalogIsBuilt(a);
    CatalogIsBuilt(b);
    BuiltInjective(CATALOG, [a], [b]);
  }

  lemma {:induction false} SchemaInjective(a: seq<Text>, b: seq<Text>)
    requires |a| == |b| == 2 && AllValid(a) && AllValid(b) && Schema(a[0], a[1]) == Schema(b[0], b[1])
    ensures a == b
  {
    SchemaIsBuilt(a[0], a[1]);
    SchemaIsBuilt(b[0], b[1]);
    BuiltInjective(SCHEMA, [a[0], a[1]], [b[0], b[1]]);
  }

  lemma {:induction false} TableInjective(a: seq<Text>, b: seq<Text>)
    requires |a| == |b| == 3 && AllValid(a) && AllValid(b) && Table(a[0], a[1], a[2]) == Table(b[0], b[1], b[2])
    ensures a == b
  {
    TableIsBuilt(a[0], a[1], a[2]);
    TableIsBuilt(b[0], b[1], b[2]);
    BuiltInjective(TABLE, [a[0], a[1], a[2]], [b[0], b[1], b[2]]);
  }

  lemma {:induction false} TableFileInjective(a: seq<Text>, b: seq<Text>)
    requires |a| == |b| == 4 && AllValid(a) && AllValid(b)
    requires TableFile(a[0], a[1], a[2], a[3]) == TableFile(b[0], b[1], b[2], b[3])
    ensures a == b
  {
    TableFileIsBuilt(a[0], a[1], a[2], a[3]);
    TableFileIsBuilt(b[0], b[1], b[2], b[3]);
    BuiltInjective(TABLE_FILE, [a[0], a[1], a[2], a[3]], [b[0], b[1], b[2], b[3]]);
  }

  lemma {:induction false} CommitInjective(a: seq<Text>, b: seq<Text>)
    requires |a| == |b| == 4 && AllValid(a) && AllValid(b)
    requires Commit(a[0], a[1], a[2], a[3]) == Commit(b[0], b[1], b[2], b[3])
    ensures a == b
  {
    CommitIsBuilt(a[0], a[1], a[2], a[3]);
    CommitIsBuilt(b[0], b[1], b[2], b[3]);
    BuiltInjective(COMMIT, [a[0], a[1], a[2], a[3]], [b[0], b[1], b[2], b[3]]);
  }

  lemma {:induction false} BlobInjective(a: seq<Text>, b: seq<Text>)
    requires |a| == |b| == 2 && AllValid(a) && AllValid(b) && Blob(a[0], a[1]) == Blob(b[0], b[1])
    ensures a == b
  {
    BlobIsBuilt(a[0], a[1]);
    BlobIsBuilt(b[0], b[1]);
    BuiltInjective(BLOB, [a[0], a[1]], [b[0], b[1]]);
  }

  lemma {:induction false} ColumnInjective(a: seq<Text>, b: seq<Text>)
    requires |a| == |b| == 3 && AllValid(a) && AllValid(b) && Column(a[0], a[1], a[2]) == Column(b[0], b[1], b[2])
    ensures a == b
  {
    ColumnIsBuilt(a[0], a[1], a[2]);
    ColumnIsBuilt(b[0], b[1], b[2]);
    BuiltInjective(COLUMN, [a[0], a[1], a[2]], [b[0], b[1], b[2]]);
  }

  lemma {:induction false} LastSegment(a: Text, b: Text, word: Text, x: Text, y: Text)
    requires word != [] && word[|word| - 1] == '/' && '/' !in x && '/' !in y
    requires a + word + x == b + word + y
    ensures a == b && x == y
  {
    var s, t := a + word + x, b + word + y;
    assert s[|s| - |x| - 1] == '/' && t[|t| - |y| - 1] == '/';
    assert forall k :: |s| - |x| <= k < |s| ==> s[k] == x[k - (|s| - |x|)];
    assert forall k :: |t| - |y| <= k < |t| ==> t[k] == y[k - (|t| - |y|)];
    assert |x| == |y|;
    assert s[..|a|] == a && t[..|b|] == b;
    assert s[|s| - |x|..] == x && t[|t| - |y|..] == y;
  }

  /** Under whatever table name, a file's and a commit's name tell the table and the id. */
  lemma {:induction false} UnderTableInjective(table: Text, id: Text, other: Text, otherId: Text)
    requires Valid(id) && Valid(otherId)
    ensures TableFileName(table, id) == TableFileName(other, otherId) ==> table == other && id == otherId
    ensures CommitName(table, id) == CommitName(other, otherId) ==> table == other && id == otherId
  {
    EncodedIsSegment(id);
    EncodedIsSegment(otherId);
    DecodeEncode(id);
    DecodeEncode(otherId);
    if TableFileName(table, id) == TableFileName(other, otherId) {
      LastSegment(table, other, "/files/", Encoded(id), Encoded(otherId));
    }
    if CommitName(table, id) == CommitName(other, otherId) {
      LastSegment(table, other, "/commits/", Encoded(id), Encoded(otherId));
    }
  }

  lemma {:induction false} MetastoreParses(metastore: Text)
    requires Valid(metastore)
    ensures ParseMetastore(Metastore(metastore)) == Some(metastore)
  {
    var root: Text := "metastores";
    EncodedIsSegment(metastore);
    assert Metastore(metastore) == root + ['/'] + Encoded(metastore);
    SplitAt(root, Encoded(metastore), '/');
    SplitWord(Encoded(metastore), '/');
    DecodeEncode(metastore);
  }

  lemma {:induction false} ColumnParses(service: Text, locator: Text, column: Text)
    requires Valid(service) && Valid(locator) && Valid(column)
    ensures ParseColumn(Column(service, locator, column)) == Some([service, locator, column])
  {
    ColumnIsBuilt(service, locator, column);
    BuiltParses(COLUMN, [service, locator, column], None);
  }

  lemma {:induction false} BlobParses(service: Text, locator: Text)
    requires Valid(service) && Valid(locator)
    ensures ParseBlob(Blob(service, locator)) == Some((service, locator))
  {
    BlobIsBuilt(service, locator);
    BuiltParses(BLOB, [service, locator], None);
    var parts := Split(Blob(service, locator), '/');
    BlobPathIds(parts);
  }

  /** On three parts the blob parser is the general one. */
  lemma {:induction false} BlobPathIds(parts: seq<Text>)
    requires |parts| == 3
    ensures PathIds(BLOB, parts) == if parts[0] == "blobs" then Some([Decoded(parts[1]), Decoded(parts[2])]) else None
  {
    var s: seq<Text> := BLOB;
    assert s[1..][1..] == s[2..] && parts[1..][1..] == parts[2..];
    assert s[2..][1..] == [] && parts[2..][1..] == [];
    EmptyUnit([Decoded(parts[2])]);
    assert PathIds(s[2..], parts[2..]) == Some([Decoded(parts[2])] + []);
    assert PathIds(s[1..], parts[1..]) == Some([Decoded(parts[1])] + [Decoded(parts[2])]);
    assert [Decoded(parts[1])] + [Decoded(parts[2])] == [Decoded(parts[1]), Decoded(parts[2])];
  }

  /** The layouts, spelled out: an encoded id between literal collections. */
  lemma {:induction false} NamesAreSpelled(a: Text, b: Text, c: Text, d: Text)
    ensures Metastore(a) == "metastores/" + Encoded(a)
    ensures Catalog(a) == "catalogs/" + Encoded(a)
    ensures Schema(a, b) == "catalogs/" + Encoded(a) + "/schemas/" + Encoded(b)
    ensures Table(a, b, c) == "catalogs/" + Encoded(a) + "/schemas/" + Encoded(b) + "/tables/" + Encoded(c)
    ensures TableFile(a, b, c, d) == Table(a, b, c) + "/files/" + Encoded(d)
    ensures Commit(a, b, c, d) == Table(a, b, c) + "/commits/" + Encoded(d)
    ensures Blob(a, b) == "blobs/" + Encoded(a) + "/" + Encoded(b)
    ensures Column(a, b, c) == "blobs/" + Encoded(a) + "/" + Encoded(b) + "/columns/" + Encoded(c)
  {
  }

  // ----- files under a table -----

  predicate OccursAt(s: Text, word: Text, at: nat) {
    at + |word| <= |s| && s[at..at + |word|] == word
  }

  /** The last place `s` holds `word`, at or before `from`. */
  function FindLast(s: Text, word: Text, from: nat): (at: Option<nat>)
    ensures at.Some? ==> at.value <= from && OccursAt(s, word, at.value)
    ensures forall k: nat :: k <= from && OccursAt(s, word, k) ==> at.Some? && k <= at.value
  {
    if OccursAt(s, word, from) then Some(from)
    else if from == 0 then None
    else FindLast(s, word, from - 1)
  }

  /** The table name and file in a `{table}/files/{file}` name. */
  function ParseTableFile(value: Text): Option<(Text, Text)> {
    var at := FindLast(value, "/files/", |value|);
    if at.None? then None
    else
      var table, file := value[..at.value], value[at.value + 7..];
      if IdsOf(table, TABLE, None).None? then None else Some((table, Decoded(file)))
  }

  lemma {:induction false} LastFiles(table: Text, tail: Text)
    requires '/' !in tail
    ensures FindLast(table + "/files/" + tail, "/files/", |table + "/files/" + tail|) == Some(|table|)
  {
    var word: Text := "/files/";
    var s := table + word + tail;
    assert OccursAt(s, word, |table|);
    forall p | |table| + 7 <= p < |s| ensures s[p] != '/' {
      assert s[p] == tail[p - |table| - 7];
    }
    forall k: nat | OccursAt(s, word, k) ensures k <= |table| {
      assert s[k + 6] == s[k..k + 7][6];
    }
  }

  /** A file name reads back as its table and file exactly when the table name is a table's, whatever the file id
      holds, and even when an id is itself `files`. */
  lemma {:induction false} TableFileParsesIff(table: Text, file: Text)
    requires Valid(file)
    ensures ParseTableFile(TableFileName(table, file)) == Some((table, file)) <==> IdsOf(table, TABLE, None).Some?
  {
    EncodedIsSegment(file);
    LastFiles(table, Encoded(file));
    var value := TableFileName(table, file);
    assert value[..|table|] == table && value[|table| + 7..] == Encoded(file);
    DecodeEncode(file);
  }

  /** Where it fails: a file under the name `x`, which is no table's. */
  lemma {:induction false} NoTableNoFile(file: Text)
    requires Valid(file)
    ensures ParseTableFile(TableFileName("x", file)) != Some(("x", file))
  {
    SplitWord("x", '/');
    TableFileParsesIff("x", file);
  }

  lemma {:induction false} TableFileParses(catalog: Text, schema: Text, table: Text, file: Text)
    requires Valid(catalog) && Valid(schema) && Valid(table) && Valid(file)
    ensures ParseTableFile(TableFile(catalog, schema, table, file)) == Some((Table(catalog, schema, table), file))
  {
    TableIsBuilt(catalog, schema, table);
    BuiltParses(TABLE, [catalog, schema, table], None);
    TableFileParsesIff(Table(catalog, schema, table), file);
  }

  // ----- blobs and storage URIs -----

  /** The first place `s` holds `word`, from `from` on. */
  function FindFirst(s: Text, word: Text, from: nat): (at: Option<nat>)
    requires from <= |s|
    ensures at.Some? ==> from <= at.value && OccursAt(s, word, at.value)
    ensures forall k: nat :: from <= k && OccursAt(s, word, k) ==> at.Some? && at.value <= k
    decreases |s| - from
  {
    if OccursAt(s, word, from) then Some(from)
    else if from == |s| then None
    else FindFirst(s, word, from + 1)
  }

  /** A storage URI's scheme and the rest; a local path is `file`. */
  function StorageParts(uri: Text): (Text, Text) {
    if StartsWith(uri, "file://") then ("file", uri[7..])
    else
      var at := FindFirst(uri, "://", 0);
      if at.Some? && at.value > 0 then (uri[..at.value], uri[at.value + 3..]) else ("file", uri)
  }

  function StorageUri(service: Text, locator: Text): Text {
    if service == "file" then locator else service + "://" + locator
  }

  function BlobName(uri: Text): Text {
    var parts := StorageParts(uri);
    Blob(parts.0, parts.1)
  }

  function BlobUri(value: Text): Option<Text> {
    var parts := ParseBlob(value);
    if parts.None? then None else Some(StorageUri(parts.value.0, parts.value.1))
  }

  lemma {:induction false} ValidAfterSlash(s: Text)
    requires Valid("/" + s)
    ensures Valid(s)
  {
    assert ("/" + s)[1..] == s;
  }

  lemma {:induction false} ValidAfterScheme(scheme: Text, locator: Text)
    requires Valid(scheme + "://" + locator)
    ensures Valid(scheme) && Valid(locator)
  {
    var slash: Text := "/" + locator;
    assert scheme + "://" + locator == scheme + [':'] + ("/" + slash);
    ValidAround(scheme, ':', "/" + slash);
    ValidAfterSlash(slash);
    ValidAfterSlash(locator);
  }

  lemma {:induction false} FileIsValid()
    ensures Valid("file")
  {
    var file: Text := "file";
    assert Valid(file[4..]) && Valid(file[3..]) && Valid(file[2..]) && Valid(file[1..]);
  }

  lemma {:induction false} SchemeParts(uri: Text, at: nat)
    requires Valid(uri) && OccursAt(uri, "://", at) && !StartsWith(uri, "file://")
    ensures Valid(uri[..at]) && Valid(uri[at + 3..])
    ensures uri == uri[..at] + "://" + uri[at + 3..]
    ensures uri[..at] != "file"
  {
    assert uri == uri[..at] + "://" + uri[at + 3..];
    ValidAfterScheme(uri[..at], uri[at + 3..]);
    assert uri[..at + 3] == uri[..at] + "://";
  }

  lemma {:induction false} StoragePartsRoundTrip(uri: Text)
    requires Valid(uri)
    ensures Valid(StorageParts(uri).0) && Valid(StorageParts(uri).1)
    ensures StorageUri(StorageParts(uri).0, StorageParts(uri).1) ==
            if StartsWith(uri, "file://") then uri[7..] else uri
  {
    FileIsValid();
    if StartsWith(uri, "file://") {
      assert uri == "file" + "://" + uri[7..];
      ValidAfterScheme("file", uri[7..]);
    } else {
      var at := FindFirst(uri, "://", 0);
      if at.Some? && at.value > 0 {
        SchemeParts(uri, at.value);
      }
    }
  }

  /** A blob name reads back as the storage URI it was made from, less any `file://` prefix. */
  lemma {:induction false} BlobUriOfName(uri: Text)
    requires Valid(uri)
    ensures BlobUri(BlobName(uri)) == Some(if StartsWith(uri, "file://") then uri[7..] else uri)
  {
    StoragePartsRoundTrip(uri);
    BlobParses(StorageParts(uri).0, StorageParts(uri).1);
  }

  /** No `://` stands before `at`. */
  predicate FirstAt(uri: Text, at: nat) {
    OccursAt(uri, "://", at) && forall k: nat :: k < at ==> !OccursAt(uri, "://", k)
  }

  /** A URI with a scheme is named by the scheme and what follows the first `://`; a `file` URI, a path without a
      scheme and one that starts with `://` are files. */
  lemma {:induction false} BlobNameIs(uri: Text)
    ensures StartsWith(uri, "file://") ==> BlobName(uri) == Blob("file", uri[7..])
    ensures forall at: nat :: FirstAt(uri, at) && at > 0 && !StartsWith(uri, "file://") ==>
      BlobName(uri) == Blob(uri[..at], uri[at + 3..])
    ensures (FirstAt(uri, 0) || forall k: nat :: !OccursAt(uri, "://", k)) && !StartsWith(uri, "file://") ==>
      BlobName(uri) == Blob("file", uri)
  {
  }

  lemma {:induction false} SchemeStands(scheme: Text, locator: Text)
    requires ':' !in scheme
    ensures FirstAt(scheme + "://" + locator, |scheme|)
    ensures StartsWith(scheme + "://" + locator, "file://") ==> scheme == "file"
  {
    var uri := scheme + "://" + locator;
    forall k: nat | k < |scheme| ensures !OccursAt(uri, "://", k) {
      assert uri[k] == scheme[k];
    }
    assert uri[|scheme|..|scheme| + 3] == "://";
    if StartsWith(uri, "file://") {
      SchemeIsFile(scheme, uri);
    }
  }

  lemma {:induction false} SchemeIsFile(scheme: Text, uri: Text)
    requires ':' !in scheme && |uri| >= |scheme| + 3 && uri[..|scheme|] == scheme && uri[|scheme|] == ':'
    requires StartsWith(uri, "file://")
    ensures scheme == "file"
  {
    var file: Text := "file://";
    assert forall k :: 0 <= k < 7 ==> uri[k] == uri[..7][k] == file[k];
    assert forall k :: 0 <= k < |scheme| ==> scheme[k] == uri[k] != ':';
    assert uri[4] == file[4] == ':' && file[0] != ':' && file[1] != ':' && file[2] != ':' && file[3] != ':';
    assert |scheme| == 4 && scheme == file[..4];
  }

  lemma {:induction false} AroundScheme(scheme: Text, locator: Text)
    ensures (scheme + "://" + locator)[..|scheme|] == scheme
    ensures (scheme + "://" + locator)[|scheme| + 3..] == locator
  {
  }

  /** `s3://bucket/key` is the blob `bucket/key` of the service `s3`. */
  lemma {:induction false} SchemeIsService(scheme: Text, locator: Text)
    requires scheme != [] && scheme != "file" && ':' !in scheme
    ensures BlobName(scheme + "://" + locator) == Blob(scheme, locator)
  {
    SchemeStands(scheme, locator);
    BlobNameIs(scheme + "://" + locator);
    AroundScheme(scheme, locator);
  }

  /** `file:///tmp/x` is the blob `/tmp/x` of the service `file`. */
  lemma {:induction false} FileUriIsFile(path: Text)
    ensures BlobName("file://" + path) == Blob("file", path)
  {
    var uri: Text := "file://" + path;
    assert uri[..7] == "file://" && uri[7..] == path;
    BlobNameIs(uri);
  }

  /** A blob reads back as its service, `://` and its locator, and a file as its bare path. */
  lemma {:induction false} BlobUriIs(service: Text, locator: Text)
    requires Valid(service) && Valid(locator)
    ensures service == "file" ==> BlobUri(Blob(service, locator)) == Some(locator)
    ensures service != "file" ==> BlobUri(Blob(service, locator)) == Some(service + "://" + locator)
  {
    BlobParses(service, locator);
  }

  // ----- tables read by path -----

  function TrimSlashes(s: Text): Text {
    if s != [] && s[|s| - 1] == '/' then TrimSlashes(s[..|s| - 1]) else s
  }

  function LastNonEmpty(pieces: seq<Text>): Option<Text> {
    if pieces == [] then None
    else if pieces[|pieces| - 1] != [] then Some(pieces[|pieces| - 1])
    else LastNonEmpty(pieces[..|pieces| - 1])
  }

  /** The name of a table read by path: the `local` catalog and schema around the root's last segment. */
  function LocalTable(uri: Text): Text {
    var root := TrimSlashes(uri);
    var last := LastNonEmpty(Split(root, '/'));
    Table("local", "local", if last.Some? then last.value else root)
  }

  predicate OnlySlashes(s: Text) {
    forall k :: 0 <= k < |s| ==> s[k] == '/'
  }

  lemma {:induction false} TrimStops(s: Text, slashes: Text)
    requires OnlySlashes(slashes) && (s == [] || s[|s| - 1] != '/')
    ensures TrimSlashes(s + slashes) == s
  {
    if slashes == [] {
      EmptyUnit(s);
    } else {
      var front := slashes[..|slashes| - 1];
      assert (s + slashes)[..|s + slashes| - 1] == s + front && (s + slashes)[|s + slashes| - 1] == '/';
      TrimStops(s, front);
    }
  }

  lemma {:induction false} LastIsLast(front: seq<Text>, last: Text)
    requires last != []
    ensures LastNonEmpty(front + [last]) == Some(last)
  {
  }

  /** A table read by path is named after the last segment of its root that is not empty, whatever slashes follow it;
      a root of slashes alone has an empty id. */
  lemma {:induction false} LocalTableIs(dir: Text, last: Text, slashes: Text)
    requires '/' !in last && OnlySlashes(slashes)
    ensures last != [] ==> LocalTable(dir + ['/'] + last + slashes) == Table("local", "local", last)
    ensures LocalTable(last + slashes) == Table("local", "local", last)
  {
    TrimStops(last, slashes);
    SplitWord(last, '/');
    if last != [] {
      LastIsLast([], last);
      assert [] + [last] == [last];
      TrimStops(dir + ['/'] + last, slashes);
      SplitConcat(dir, last, '/');
      LastIsLast(Split(dir, '/'), last);
    }
  }
}
