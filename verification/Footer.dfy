/** The footer of a remote Parquet object, read from one suffix of the object and, when the footer is larger than that,
    from a second range: against the footer cut from the whole object. */
module Footer {
  import opened Text

  const TRAILER: nat := 8
  const WINDOW: nat := 65536
  const MAGIC: Text := "PAR1"

  datatype Error = TooSmall | ShortTrailer | TooLong | NoMagic | BadSize | Truncated | Storage(cause: Text)

  /** What reading the bytes from one offset up to another gives. */
  datatype Reader = Reader(range: (nat, nat) -> Result<Text, Text>)

  /** `u32::from_le_bytes`. */
  function LittleEndian(b: Text): nat
    requires |b| == 4
  {
    b[0] as int + 256 * b[1] as int + 65536 * b[2] as int + 16777216 * b[3] as int
  }

  /** Where the serialized metadata starts in the object, how long it is, the trailer, and where the footer begins in
      the suffix that was read, when it does. */
  datatype Layout = Layout(metadataStart: nat, metadataLength: nat, trailer: Text, footerAt: Option<nat>)

  function FooterLayout(size: nat, tail: Text): Result<Layout, Error> {
    if |tail| < TRAILER then Err(ShortTrailer)
    else if |tail| > size then Err(TooLong)
    else
      var trailer := tail[|tail| - TRAILER..];
      if trailer[4..] != MAGIC then Err(NoMagic)
      else
        var length := LittleEndian(trailer[..4]);
        var tailStart := size - |tail|;
        if size < TRAILER + length + 4 then Err(BadSize)
        else
          var start := size - TRAILER - length;
          Ok(Layout(start, length, trailer, if start >= tailStart then Some(start - tailStart) else None))
  }

  /** The suffix read first. */
  function SuffixStart(size: nat, window: nat): nat {
    if window < size then size - window else 0
  }

  /** The whole read, with the window as a parameter. */
  function ReadFooter(reader: Reader, size: nat, window: nat): Result<Text, Error> {
    if size < TRAILER then Err(TooSmall) else
    var tail := reader.range(SuffixStart(size, window), size);
    if tail.Err? then Err(Storage(tail.error)) else
    var layout := FooterLayout(size, tail.value);
    if layout.Err? then Err(layout.error) else
    var l := layout.value;
    if l.footerAt.Some? then Checked(tail.value[l.footerAt.value..], l.metadataLength) else
    var more := reader.range(l.metadataStart, size - TRAILER);
    if more.Err? then Err(Storage(more.error)) else Checked(more.value + l.trailer, l.metadataLength)
  }

  function Checked(footer: Text, length: nat): Result<Text, Error> {
    if |footer| != length + TRAILER then Err(Truncated) else Ok(footer)
  }

  method ReadRemote(reader: Reader, size: nat) returns (r: Result<Text, Error>)
    ensures r == ReadFooter(reader, size, WINDOW)
    ensures forall bytes :: |bytes| == size && Serves(reader, bytes) ==> r == FooterOf(bytes)
  {
    forall bytes | |bytes| == size && Serves(reader, bytes)
      ensures ReadFooter(reader, size, WINDOW) == FooterOf(bytes)
    {
      WindowIsImmaterial(reader, bytes, WINDOW);
    }
    if size < TRAILER {
      return Err(TooSmall);
    }
    var tail := reader.range(SuffixStart(size, WINDOW), size);
    if tail.Err? {
      return Err(Storage(tail.error));
    }
    var layout := FooterLayout(size, tail.value);
    if layout.Err? {
      return Err(layout.error);
    }
    var footer: Text;
    if layout.value.footerAt.Some? {
      footer := tail.value[layout.value.footerAt.value..];
    } else {
      var more := reader.range(layout.value.metadataStart, size - TRAILER);
      if more.Err? {
        return Err(Storage(more.error));
      }
      footer := more.value;
      footer := footer + layout.value.trailer;
    }
    if |footer| != layout.value.metadataLength + TRAILER {
      return Err(Truncated);
    }
    return Ok(footer);
  }

  // ----- the footer of a whole object -----

  /** The footer cut from the object itself. */
  function FooterOf(bytes: Text): Result<Text, Error> {
    if |bytes| < TRAILER then Err(TooSmall)
    else
      var trailer := bytes[|bytes| - TRAILER..];
      if trailer[4..] != MAGIC then Err(NoMagic)
      else
        var length := LittleEndian(trailer[..4]);
        if |bytes| < TRAILER + length + 4 then Err(BadSize) else Ok(bytes[|bytes| - TRAILER - length..])
  }

  /** A reader that returns the object's own bytes. */
  ghost predicate Serves(reader: Reader, bytes: Text) {
    forall a: nat, b: nat {:trigger reader.range(a, b)} :: a <= b <= |bytes| ==> reader.range(a, b) == Ok(bytes[a..b])
  }

  /** The last eight bytes: the metadata's length, least byte first, and the magic. */
  predicate Trailer(t: Text, length: nat) {
    && |t| == 8 && t[4..] == ['P', 'A', 'R', '1']
    && t[0] as int + 256 * t[1] as int + 65536 * t[2] as int + 16777216 * t[3] as int == length
  }

  /** An object that ends in its metadata and the trailer, with at least the four bytes of the opening magic ahead, has
      just those two for its footer. */
  lemma {:induction false} FooterIsCut(head: Text, metadata: Text, trailer: Text)
    requires |head| >= 4 && Trailer(trailer, |metadata|)
    ensures FooterOf(head + metadata + trailer) == Ok(metadata + trailer)
  {
    var bytes, magic: Text := head + metadata + trailer, MAGIC;
    assert magic == ['P', 'A', 'R', '1'];
    assert bytes[|bytes| - 8..] == trailer;
    Associate(head, metadata, trailer);
    assert (head + (metadata + trailer))[|head|..] == metadata + trailer;
  }

  /** An object that is too short, does not end in the magic, or is shorter than its trailer says is refused. */
  lemma {:induction false} BadFooters(head: Text, trailer: Text, length: nat)
    ensures |head| < 8 ==> FooterOf(head) == Err(TooSmall)
    ensures |trailer| == 8 && trailer[4..] != ['P', 'A', 'R', '1'] ==> FooterOf(head + trailer) == Err(NoMagic)
    ensures Trailer(trailer, length) && |head| < length + 4 ==> FooterOf(head + trailer) == Err(BadSize)
  {
    var bytes, magic: Text := head + trailer, MAGIC;
    assert magic == ['P', 'A', 'R', '1'];
    if |trailer| == 8 {
      assert bytes[|bytes| - 8..] == trailer;
    }
  }

  lemma {:induction false} SuffixOfSuffix(s: Text, a: nat, b: nat)
    requires a <= b <= |s|
    ensures s[a..][b - a..] == s[b..]
  {
  }

  lemma {:induction false} TwoParts(s: Text, a: nat, b: nat)
    requires a <= b <= |s|
    ensures s[a..b] + s[b..] == s[a..]
  {
  }

  lemma {:induction false} WholeSuffix(s: Text, a: nat)
    requires a <= |s|
    ensures s[a..|s|] == s[a..]
  {
  }

  /** The layout of a suffix of the object. */
  lemma {:induction false} LayoutOfSuffix(bytes: Text, a: nat)
    requires a + TRAILER <= |bytes|
    ensures
      var whole, layout := FooterOf(bytes), FooterLayout(|bytes|, bytes[a..]);
      (layout.Err? <==> whole.Err?) && (layout.Err? ==> layout.error == whole.error)
      && (layout.Ok? ==>
            var l := layout.value;
            var n := l.metadataLength;
            l.metadataStart + n + TRAILER == |bytes| && whole == Ok(bytes[l.metadataStart..])
            && l.trailer == bytes[|bytes| - TRAILER..]
            && (l.footerAt == if l.metadataStart >= a then Some(l.metadataStart - a) else None))
  {
    SuffixOfSuffix(bytes, a, |bytes| - TRAILER);
    assert |bytes[a..]| == |bytes| - a;
  }

  /** However much of the tail the first request asks for, one read or two, the footer is the object's own, and so is
      the error. */
  lemma {:induction false} WindowIsImmaterial(reader: Reader, bytes: Text, window: nat)
    requires Serves(reader, bytes) && window >= TRAILER
    ensures ReadFooter(reader, |bytes|, window) == FooterOf(bytes)
  {
    var size := |bytes|;
    if size >= TRAILER {
      var a := SuffixStart(size, window);
      assert reader.range(a, size) == Ok(bytes[a..size]);
      WholeSuffix(bytes, a);
      LayoutOfSuffix(bytes, a);
      var layout := FooterLayout(size, bytes[a..]);
      if layout.Ok? {
        var start := layout.value.metadataStart;
        if start >= a {
          SuffixOfSuffix(bytes, a, start);
        } else {
          assert reader.range(start, size - TRAILER) == Ok(bytes[start..size - TRAILER]);
          TwoParts(bytes, start, size - TRAILER);
        }
      }
    }
  }

  /** Whatever a reader returns, too little or something else, a footer is only accepted when it is as long as the
      trailer it ends in says. */
  lemma {:induction false} AcceptedIsWhole(reader: Reader, size: nat, window: nat)
    requires ReadFooter(reader, size, window).Ok?
    ensures
      var footer := ReadFooter(reader, size, window).value;
      |footer| >= TRAILER && |footer| + 4 <= size
      && footer[|footer| - 4..] == MAGIC
      && |footer| == TRAILER + LittleEndian(footer[|footer| - TRAILER..|footer| - 4])
  {
    var tail := reader.range(SuffixStart(size, window), size).value;
    var l := FooterLayout(size, tail).value;
    var footer := ReadFooter(reader, size, window).value;
    if l.footerAt.Some? {
      SuffixOfSuffix(tail, l.footerAt.value, |tail| - TRAILER);
    }
    assert footer[|footer| - TRAILER..] == l.trailer;
    assert footer[|footer| - 4..] == l.trailer[4..];
    assert footer[|footer| - TRAILER..|footer| - 4] == l.trailer[..4];
  }
}
