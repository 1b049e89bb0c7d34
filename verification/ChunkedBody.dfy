/** The chunked transfer decoder of the Docker probe, against the encoding of section 7.1 of RFC 9112. */
module ChunkedBody {

  type Byte = x: int | 0 <= x < 256

  datatype Option<T> = None | Some(value: T)

  const CR: Byte := 13
  const LF: Byte := 10
  const SEMICOLON: Byte := 59
  const MINUS: Byte := 45
  const CRLF: seq<Byte> := [CR, LF]

  // ----- Python's slices, find and int(token, 16) -----

  function Index(i: int, n: nat): (r: nat)
    ensures r <= n
  {
    if i < 0 then (if i + n < 0 then 0 else i + n) else if i <= n then i else n
  }

  function Slice(s: seq<Byte>, i: int, j: int): seq<Byte> {
    var a, b := Index(i, |s|), Index(j, |s|);
    if a <= b then s[a..b] else []
  }

  /** The first position of CRLF at or after `from`, or -1. */
  function FindLine(s: seq<Byte>, from: nat): (r: int)
    ensures r == -1 || (from <= r && r + 1 < |s| && s[r] == CR && s[r + 1] == LF)
    decreases |s| - from
  {
    if |s| < from + 2 then -1
    else if s[from] == CR && s[from + 1] == LF then from
    else FindLine(s, from + 1)
  }

  function UpTo(s: seq<Byte>, b: Byte): seq<Byte> {
    if s == [] || s[0] == b then [] else [s[0]] + UpTo(s[1..], b)
  }

  predicate IsSpace(b: Byte) { b == 32 || 9 <= b <= 13 }

  function StripLeft(s: seq<Byte>): seq<Byte> {
    if s != [] && IsSpace(s[0]) then StripLeft(s[1..]) else s
  }

  function StripRight(s: seq<Byte>): seq<Byte> {
    if s != [] && IsSpace(s[|s| - 1]) then StripRight(s[..|s| - 1]) else s
  }

  predicate IsHex(b: Byte) { 48 <= b <= 57 || 65 <= b <= 70 || 97 <= b <= 102 }

  function HexDigit(b: Byte): nat
    requires IsHex(b)
  {
    if b <= 57 then b - 48 else if b <= 70 then b - 55 else b - 87
  }

  /** Digits with single underscores between them. */
  function Digits(s: seq<Byte>, acc: nat, afterDigit: bool): Option<nat> {
    if s == [] then (if afterDigit then Some(acc) else None)
    else if s[0] == 95 then (if afterDigit then Digits(s[1..], acc, false) else None)
    else if IsHex(s[0]) then Digits(s[1..], acc * 16 + HexDigit(s[0]), true)
    else None
  }

  /** `int(token, 16)`: surrounding blanks, a sign, an 0x prefix and underscores are all accepted. */
  function ParseHex(token: seq<Byte>): Option<int> {
    var t := StripRight(StripLeft(token));
    var signed := t != [] && (t[0] == MINUS || t[0] == 43);
    var u := if signed then t[1..] else t;
    var prefixed := |u| >= 2 && u[0] == 48 && (u[1] == 120 || u[1] == 88);
    var v := if prefixed then u[2..] else u;
    var w := if prefixed && v != [] && v[0] == 95 then v[1..] else v;
    var d := Digits(w, 0, false);
    if d.None? then None
    else
      var value: int := d.value;
      Some(if signed && t[0] == MINUS then -value else value)
  }

  // ----- the decoder -----

  datatype Round = Reject | Finish | More(cursor: int, data: seq<Byte>)

  /** One round of the decoding loop. */
  function DecodeRound(body: seq<Byte>, cursor: int): Round {
    var lineEnd := FindLine(body, Index(cursor, |body|));
    if lineEnd < 0 then Reject
    else
      var size := ParseHex(UpTo(Slice(body, cursor, lineEnd), SEMICOLON));
      var start := lineEnd + 2;
      if size.None? then Reject
      else if size.value == 0 then Finish
      else
        var end := start + size.value;
        if end + 2 > |body| || Slice(body, end, end + 2) != CRLF then Reject
        else More(end + 2, Slice(body, start, end))
  }

  datatype Outcome = Rejected | Decoded(body: seq<Byte>) | StillRunning

  /** At most `rounds` rounds from a cursor. */
  function Run(body: seq<Byte>, cursor: int, decoded: seq<Byte>, rounds: nat): Outcome
    decreases rounds
  {
    if rounds == 0 then StillRunning
    else match DecodeRound(body, cursor)
      case Reject => Rejected
      case Finish => Decoded(decoded)
      case More(next, data) => Run(body, next, decoded + data, rounds - 1)
  }

  /** The decoding loop, cut off after `rounds` rounds. */
  method Decode(body: seq<Byte>, rounds: nat) returns (r: Outcome)
    ensures r == Run(body, 0, [], rounds)
  {
    hide ParseHex, UpTo, FindLine, Slice;
    var decoded: seq<Byte>, cursor: int := [], 0;
    for i := 0 to rounds
      invariant Run(body, 0, [], rounds) == Run(body, cursor, decoded, rounds - i)
    {
      var lineEnd := FindLine(body, Index(cursor, |body|));
      if lineEnd < 0 { return Rejected; }
      var size := ParseHex(UpTo(Slice(body, cursor, lineEnd), SEMICOLON));
      if size.None? { return Rejected; }
      var start := lineEnd + 2;
      if size.value == 0 { return Decoded(decoded); }
      var end := start + size.value;
      if end + 2 > |body| || Slice(body, end, end + 2) != CRLF { return Rejected; }
      decoded := decoded + Slice(body, start, end);
      cursor := end + 2;
    }
    r := StillRunning;
  }

  // ----- the encoding -----

  /** A chunk: its size in hexadecimal, any extension, and its data. */
  datatype Chunk = Chunk(digits: seq<Byte>, extension: seq<Byte>, data: seq<Byte>)

  ghost predicate AllHex(s: seq<Byte>) { forall b | b in s :: IsHex(b) }

  /** The value of a string of hexadecimal digits, most significant first. */
  function HexValue(s: seq<Byte>, acc: nat): nat
    requires AllHex(s)
  {
    if s == [] then acc else
      assert s[0] in s;
      HexValue(s[1..], acc * 16 + HexDigit(s[0]))
  }

  /** Empty, or blanks and then a semicolon with anything but a carriage return after it. */
  ghost predicate ValidExtension(e: seq<Byte>) {
    && (forall b | b in e :: b != CR)
    && (e == [] || exists k | 0 <= k < |e| :: e[k] == SEMICOLON && forall i | 0 <= i < k :: e[i] == 32 || e[i] == 9)
  }

  ghost predicate ValidSize(digits: seq<Byte>, extension: seq<Byte>, size: nat) {
    digits != [] && AllHex(digits) && HexValue(digits, 0) == size && ValidExtension(extension)
  }

  ghost predicate ValidChunk(c: Chunk) {
    c.data != [] && ValidSize(c.digits, c.extension, |c.data|)
  }

  function EncodeChunk(c: Chunk): seq<Byte> {
    c.digits + c.extension + CRLF + c.data + CRLF
  }

  function EncodeChunks(chunks: seq<Chunk>): seq<Byte> {
    if chunks == [] then [] else EncodeChunk(chunks[0]) + EncodeChunks(chunks[1..])
  }

  function Payload(chunks: seq<Chunk>): seq<Byte> {
    if chunks == [] then [] else chunks[0].data + Payload(chunks[1..])
  }

  /** The zero-size line that ends the chunks; a trailer may follow. */
  function LastLine(digits: seq<Byte>, extension: seq<Byte>): seq<Byte> { digits + extension + CRLF }

  // ----- reading one size line -----

  lemma {:induction false} FindsLine(s: seq<Byte>, from: nat, k: nat)
    requires from <= k && k + 1 < |s| && s[k] == CR && s[k + 1] == LF
    requires forall i | from <= i < k :: s[i] != CR
    ensures FindLine(s, from) == k
    decreases k - from
  {
    if from < k { FindsLine(s, from + 1, k); }
  }

  lemma {:induction false} FindsNothing(s: seq<Byte>, from: nat)
    requires forall i | from <= i < |s| - 1 :: s[i] != CR
    ensures FindLine(s, from) == -1
    decreases |s| - from
  {
    if from + 2 <= |s| { FindsNothing(s, from + 1); }
  }

  lemma {:induction false} UpToStops(a: seq<Byte>, b: seq<Byte>)
    requires SEMICOLON !in a && (b == [] || b[0] == SEMICOLON)
    ensures UpTo(a + b, SEMICOLON) == a
  {
    if a == [] {
      assert a + b == b;
    } else {
      assert (a + b)[1..] == a[1..] + b;
      UpToStops(a[1..], b);
    }
  }

  lemma {:induction false} StripsBlanks(digits: seq<Byte>, blanks: seq<Byte>)
    requires digits != [] && AllHex(digits) && forall b | b in blanks :: b == 32 || b == 9
    ensures StripRight(StripLeft(digits + blanks)) == digits
  {
    var s := digits + blanks;
    assert s[0] == digits[0] && digits[0] in digits;
    if blanks == [] {
      assert s == digits && digits[|digits| - 1] in digits;
    } else {
      var n := |blanks| - 1;
      assert blanks[n] in blanks && s[|s| - 1] == blanks[n];
      assert s[..|s| - 1] == digits + blanks[..n];
      assert forall b | b in blanks[..n] :: b in blanks;
      StripsBlanks(digits, blanks[..n]);
      assert (digits + blanks[..n])[0] == digits[0];
    }
  }

  lemma {:induction false} DigitsRead(s: seq<Byte>, acc: nat, after: bool)
    requires AllHex(s) && (after || s != [])
    ensures Digits(s, acc, after) == Some(HexValue(s, acc))
  {
    if s != [] {
      assert s[0] in s;
      assert forall b | b in s[1..] :: b in s;
      DigitsRead(s[1..], acc * 16 + HexDigit(s[0]), true);
    }
  }

  lemma ParsesDigits(digits: seq<Byte>, blanks: seq<Byte>)
    requires digits != [] && AllHex(digits) && forall b | b in blanks :: b == 32 || b == 9
    ensures ParseHex(digits + blanks) == Some(HexValue(digits, 0))
  {
    StripsBlanks(digits, blanks);
    assert digits[0] in digits;
    if |digits| > 1 { assert digits[1] in digits; }
    DigitsRead(digits, 0, false);
  }

  /** A size line with any valid extension is read as its size. */
  lemma SizeLineParses(digits: seq<Byte>, extension: seq<Byte>, size: nat)
    requires ValidSize(digits, extension, size)
    ensures ParseHex(UpTo(digits + extension, SEMICOLON)) == Some(size)
  {
    var k := 0;
    if extension != [] {
      k :| 0 <= k < |extension| && extension[k] == SEMICOLON && forall i | 0 <= i < k :: extension[i] == 32 || extension[i] == 9;
    }
    var blanks, rest := extension[..k], extension[k..];
    assert digits + extension == digits + blanks + rest;
    assert forall b | b in digits + blanks :: b in digits || b in blanks;
    UpToStops(digits + blanks, rest);
    ParsesDigits(digits, blanks);
  }

  lemma {:induction false} DigitsNeedHex(s: seq<Byte>, acc: nat, after: bool)
    ensures Digits(s, acc, after).Some? ==> forall b | b in s :: IsHex(b) || b == 95
    ensures Digits(s, acc, after).Some? && !after ==> exists b :: b in s && IsHex(b)
  {
    if s != [] {
      assert s == [s[0]] + s[1..] && s[0] in s;
      if s[0] == 95 && after { DigitsNeedHex(s[1..], acc, false); }
      if s[0] != 95 && IsHex(s[0]) { DigitsNeedHex(s[1..], acc * 16 + HexDigit(s[0]), true); }
    }
  }

  lemma {:induction false} StrippedSpaces(s: seq<Byte>)
    ensures forall b | b in s && !IsSpace(b) :: b in StripLeft(s) && b in StripRight(s)
    ensures forall b | b in StripLeft(s) || b in StripRight(s) :: b in s
    decreases |s|
  {
    if s != [] {
      assert s == [s[0]] + s[1..] && s == s[..|s| - 1] + [s[|s| - 1]];
      StrippedSpaces(s[1..]);
      StrippedSpaces(s[..|s| - 1]);
    }
  }

  /** What may occur in a size at all: hexadecimal digits, blanks, a sign, the x of a prefix and underscores. */
  predicate MayOccur(b: Byte) { IsHex(b) || IsSpace(b) || b == MINUS || b == 43 || b == 120 || b == 88 || b == 95 }

  /** A size without a hexadecimal digit, the empty one included, or with any other byte is no size. */
  lemma StrangeSizesRejected(token: seq<Byte>)
    requires (forall b | b in token :: !IsHex(b)) || exists b :: b in token && !MayOccur(b)
    ensures ParseHex(token) == None
  {
    StrippedSpaces(token);
    StrippedSpaces(StripLeft(token));
    var t := StripRight(StripLeft(token));
    var u := if t != [] && (t[0] == MINUS || t[0] == 43) then t[1..] else t;
    var v := if |u| >= 2 && u[0] == 48 && (u[1] == 120 || u[1] == 88) then u[2..] else u;
    var w := if |u| >= 2 && u[0] == 48 && (u[1] == 120 || u[1] == 88) && v != [] && v[0] == 95 then v[1..] else v;
    DigitsNeedHex(w, 0, false);
    if Digits(w, 0, false).Some? {
      var d :| d in w && IsHex(d);
      assert d in v && d in u && d in t && d in token;
      var b :| b in token && !MayOccur(b);
      assert b in t && !IsSpace(b);
      StrangeStays(t, u, v, w, b);
    }
  }

  lemma StrangeStays(t: seq<Byte>, u: seq<Byte>, v: seq<Byte>, w: seq<Byte>, b: Byte)
    requires b in t && !MayOccur(b)
    requires u == if t != [] && (t[0] == MINUS || t[0] == 43) then t[1..] else t
    requires v == if |u| >= 2 && u[0] == 48 && (u[1] == 120 || u[1] == 88) then u[2..] else u
    requires w == v || (v != [] && v[0] == 95 && w == v[1..])
    ensures b in w
  {
    if u != t { assert t == [t[0]] + u; }
    if v != u { assert u == [u[0], u[1]] + v; }
    if w != v { assert v == [v[0]] + w; }
  }

  const LOWER: string := "0123456789abcdef"
  const UPPER: string := "0123456789ABCDEF"

  /** The usual digit for d, by its place in the alphabet. */
  function HexChar(d: nat, upper: bool): (b: Byte)
    requires d < 16
    ensures b == (if upper then UPPER[d] else LOWER[d]) as int
  {
    assert LOWER == ['0', '1', '2', '3', '4', '5', '6', '7', '8', '9', 'a', 'b', 'c', 'd', 'e', 'f'];
    assert UPPER == ['0', '1', '2', '3', '4', '5', '6', '7', '8', '9', 'A', 'B', 'C', 'D', 'E', 'F'];
    if d < 10 then 48 + d else if upper then 55 + d else 87 + d
  }

  /** The usual hexadecimal rendering of n. */
  function Hexadecimal(n: nat, upper: bool): (r: seq<Byte>)
    ensures r != []
  {
    if n < 16 then [HexChar(n, upper)] else Hexadecimal(n / 16, upper) + [HexChar(n % 16, upper)]
  }

  lemma {:induction false} HexValueNext(s: seq<Byte>, x: Byte, acc: nat)
    requires AllHex(s) && IsHex(x)
    ensures AllHex(s + [x]) && HexValue(s + [x], acc) == HexValue(s, acc) * 16 + HexDigit(x)
    decreases |s|
  {
    if s == [] {
      assert s + [x] == [x] && [x][1..] == [];
      assert HexValue([x], acc) == HexValue([x][1..], acc * 16 + HexDigit(x));
    } else {
      assert s[0] in s && forall b | b in s[1..] :: b in s;
      HexValueNext(s[1..], x, acc * 16 + HexDigit(s[0]));
      assert (s + [x])[1..] == s[1..] + [x];
    }
  }

  lemma {:induction false} HexadecimalValue(n: nat, upper: bool)
    ensures AllHex(Hexadecimal(n, upper)) && HexValue(Hexadecimal(n, upper), 0) == n
  {
    if n < 16 {
      var s := Hexadecimal(n, upper);
      HexValueNext([], s[0], 0);
      assert [] + [s[0]] == s;
    } else {
      HexadecimalValue(n / 16, upper);
      HexValueNext(Hexadecimal(n / 16, upper), HexChar(n % 16, upper), 0);
    }
  }

  /** A number in its usual hexadecimal form, in either letter case, is read as itself. */
  lemma HexadecimalReads(n: nat, upper: bool)
    ensures ParseHex(Hexadecimal(n, upper)) == Some(n)
  {
    HexadecimalValue(n, upper);
    var s := Hexadecimal(n, upper);
    ParsesDigits(s, []);
    assert s + [] == s;
  }

  /** The size line found at the end of `before`, in a body that may be cut short. */
  lemma SizeLine(before: seq<Byte>, digits: seq<Byte>, extension: seq<Byte>, size: nat, after: seq<Byte>, n: nat)
    requires ValidSize(digits, extension, size)
    requires |before| <= n <= |before + (digits + extension + CRLF) + after|
    ensures var body := (before + (digits + extension + CRLF) + after)[..n];
      var line := |before| + |digits + extension|;
      if n < line + 2 then FindLine(body, |before|) == -1
      else FindLine(body, |before|) == line && body[|before|..line] == digits + extension
  {
    var full := before + (digits + extension + CRLF) + after;
    var body := full[..n];
    var line := |before| + |digits + extension|;
    assert full[line] == CR && full[line + 1] == LF;
    assert full[|before|..line] == digits + extension;
    forall i | |before| <= i < line ensures full[i] != CR {
      assert full[i] == (digits + extension)[i - |before|];
      assert (digits + extension)[i - |before|] in digits || (digits + extension)[i - |before|] in extension;
    }
    if n < line + 2 {
      FindsNothing(body, |before|);
    } else {
      FindsLine(body, |before|, line);
      assert body[|before|..line] == full[|before|..line];
    }
  }

  lemma SliceInside(s: seq<Byte>, i: nat, j: nat)
    requires i <= j <= |s|
    ensures Slice(s, i, j) == s[i..j]
  {
  }

  lemma ChunkData(before: seq<Byte>, data: seq<Byte>, after: seq<Byte>, n: nat)
    requires |before| + |data| + 2 <= n <= |before + (data + CRLF + after)|
    ensures var body, end := (before + (data + CRLF + after))[..n], |before| + |data|;
      body[|before|..end] == data && body[end..end + 2] == CRLF
  {
  }

  /** One round over a chunk: its data if the body holds the whole chunk, a rejection if it is cut. */
  lemma ChunkRound(before: seq<Byte>, c: Chunk, after: seq<Byte>, n: nat)
    requires ValidChunk(c) && |before| <= n <= |before + EncodeChunk(c) + after|
    ensures var body := (before + EncodeChunk(c) + after)[..n];
      DecodeRound(body, |before|) ==
        if n < |before| + |EncodeChunk(c)| then Reject else More(|before| + |EncodeChunk(c)|, c.data)
  {
    hide ParseHex, UpTo, FindLine, ValidSize, Slice;
    var full := before + EncodeChunk(c) + after;
    var body := full[..n];
    var tail := c.data + CRLF + after;
    assert full == before + (c.digits + c.extension + CRLF) + tail;
    SizeLine(before, c.digits, c.extension, |c.data|, tail, n);
    SizeLineParses(c.digits, c.extension, |c.data|);
    var line := |before| + |c.digits + c.extension|;
    if n >= line + 2 {
      var start, end := line + 2, line + 2 + |c.data|;
      SliceInside(body, |before|, line);
      assert end + 2 == |before| + |EncodeChunk(c)|;
      if end + 2 <= n {
        ChunkData(before + (c.digits + c.extension + CRLF), c.data, after, n);
        SliceInside(body, start, end);
        SliceInside(body, end, end + 2);
      }
    }
  }

  lemma LastRound(before: seq<Byte>, digits: seq<Byte>, extension: seq<Byte>, trailer: seq<Byte>, n: nat)
    requires ValidSize(digits, extension, 0) && |before| <= n <= |before + LastLine(digits, extension) + trailer|
    ensures var body := (before + LastLine(digits, extension) + trailer)[..n];
      DecodeRound(body, |before|) == if n < |before| + |LastLine(digits, extension)| then Reject else Finish
  {
    hide ParseHex, UpTo, FindLine, ValidSize, Slice;
    SizeLine(before, digits, extension, 0, trailer, n);
    SizeLineParses(digits, extension, 0);
    var body := (before + LastLine(digits, extension) + trailer)[..n];
    var line := |before| + |digits + extension|;
    if n >= line + 2 { SliceInside(body, |before|, line); }
  }

  ghost predicate ValidChunks(chunks: seq<Chunk>) { forall c | c in chunks :: ValidChunk(c) }

  lemma {:induction false} RunEncoded(before: seq<Byte>, chunks: seq<Chunk>, digits: seq<Byte>, extension: seq<Byte>,
                                      trailer: seq<Byte>, n: nat, decoded: seq<Byte>, rounds: nat)
    requires ValidChunks(chunks) && ValidSize(digits, extension, 0) && rounds > |chunks|
    requires |before| <= n <= |before + (EncodeChunks(chunks) + LastLine(digits, extension) + trailer)|
    ensures var coded := EncodeChunks(chunks) + LastLine(digits, extension);
      Run((before + (coded + trailer))[..n], |before|, decoded, rounds) ==
        if n < |before + coded| then Rejected else Decoded(decoded + Payload(chunks))
    decreases |chunks|
  {
    hide DecodeRound, EncodeChunk, LastLine, ValidSize, ValidChunk;
    var last := LastLine(digits, extension);
    if chunks == [] {
      assert before + (EncodeChunks(chunks) + last + trailer) == before + last + trailer;
      LastRound(before, digits, extension, trailer, n);
      assert decoded + [] == decoded;
    } else {
      var c, rest := chunks[0], chunks[1..];
      assert c in chunks;
      assert chunks == [c] + rest;
      Regroup(before, c, rest, last, trailer);
      ChunkRound(before, c, EncodeChunks(rest) + last + trailer, n);
      if n >= |before| + |EncodeChunk(c)| {
        assert decoded + c.data + Payload(rest) == decoded + Payload(chunks);
        RunEncoded(before + EncodeChunk(c), rest, digits, extension, trailer, n, decoded + c.data, rounds - 1);
      }
    }
  }

  lemma Regroup(before: seq<Byte>, c: Chunk, rest: seq<Chunk>, last: seq<Byte>, trailer: seq<Byte>)
    ensures var all := [c] + rest;
      && before + (EncodeChunks(all) + last + trailer) == before + EncodeChunk(c) + (EncodeChunks(rest) + last + trailer)
      && |before + (EncodeChunks(all) + last)| == |before + EncodeChunk(c) + (EncodeChunks(rest) + last)|
  {
    var all := [c] + rest;
    assert all[1..] == rest;
  }

  /** Round trip and truncation in one: a body cut before the end of its zero-size line is rejected,
      any other prefix, with or without a trailer, decodes to the concatenated data. */
  lemma EncodedBodyDecodes(chunks: seq<Chunk>, digits: seq<Byte>, extension: seq<Byte>, trailer: seq<Byte>, n: nat, rounds: nat)
    requires ValidChunks(chunks) && ValidSize(digits, extension, 0) && rounds > |chunks|
    requires n <= |EncodeChunks(chunks) + LastLine(digits, extension) + trailer|
    ensures var coded := EncodeChunks(chunks) + LastLine(digits, extension);
      Run((coded + trailer)[..n], 0, [], rounds) == if n < |coded| then Rejected else Decoded(Payload(chunks))
  {
    var coded := EncodeChunks(chunks) + LastLine(digits, extension);
    assert [] + (coded + trailer) == coded + trailer && [] + coded == coded && [] + Payload(chunks) == Payload(chunks);
    RunEncoded([], chunks, digits, extension, trailer, n, [], rounds);
  }

  // ----- termination -----

  lemma {:induction false} PartsOf(s: seq<Byte>, b: Byte)
    ensures b in StripLeft(s) ==> b in s
    ensures b in StripRight(s) ==> b in s
    ensures b in UpTo(s, SEMICOLON) ==> b in s
    decreases |s|
  {
    if s != [] {
      PartsOf(s[1..], b);
      PartsOf(s[..|s| - 1], b);
    }
  }

  /** Only a minus sign makes a size negative. */
  lemma SizeNotNegative(token: seq<Byte>)
    requires MINUS !in token
    ensures ParseHex(token).Some? ==> ParseHex(token).value >= 0
  {
    PartsOf(token, MINUS);
    PartsOf(StripLeft(token), MINUS);
  }

  /** What a round reads as the size: the line at the cursor, up to a semicolon. */
  function SizeToken(body: seq<Byte>, cursor: int): seq<Byte> {
    UpTo(Slice(body, cursor, FindLine(body, Index(cursor, |body|))), SEMICOLON)
  }

  /** The start of the body, or just after a CRLF. */
  predicate LineStart(body: seq<Byte>, p: nat) {
    p <= |body| && (p == 0 || (p >= 2 && body[p - 2..p] == CRLF))
  }

  /** A round whose size has no minus sign moves the cursor forward, within the body, to the start of a line. So only a size with a
      minus sign moves it back. */
  lemma CursorAdvances(body: seq<Byte>, cursor: nat)
    requires cursor <= |body|
    ensures var r := DecodeRound(body, cursor);
      r.More? ==> MINUS in SizeToken(body, cursor) || (cursor < r.cursor && LineStart(body, r.cursor))
  {
    hide ParseHex, UpTo;
    if MINUS !in SizeToken(body, cursor) { SizeNotNegative(SizeToken(body, cursor)); }
  }

  /** No line of the body has a minus sign where a size would be read; the data may hold minus signs anywhere else. */
  ghost predicate PlainSizes(body: seq<Byte>) {
    forall p: nat | LineStart(body, p) :: MINUS !in SizeToken(body, p)
  }

  /** On such a body the loop ends within one round per byte, plus one. */
  lemma {:induction false} DecoderTerminates(body: seq<Byte>, cursor: nat, decoded: seq<Byte>, rounds: nat)
    requires PlainSizes(body) && LineStart(body, cursor) && rounds > |body| - cursor
    ensures Run(body, cursor, decoded, rounds) != StillRunning
    decreases rounds
  {
    hide DecodeRound, SizeToken;
    CursorAdvances(body, cursor);
    var r := DecodeRound(body, cursor);
    if r.More? {
      DecoderTerminates(body, r.cursor, decoded + r.data, rounds - 1);
    }
  }

  /** A one-byte chunk followed by the size line "-6": the second round returns to its own start. */
  const REWINDING: seq<Byte> := [49, 13, 10, 97, 13, 10, 45, 54, 13, 10]

  lemma RewindingRounds()
    ensures DecodeRound(REWINDING, 0) == More(6, [97])
    ensures DecodeRound(REWINDING, 6) == More(6, [])
  {
    hide ParseHex, UpTo, FindLine;
    var body := REWINDING;
    FindsLine(body, 0, 1);
    FindsLine(body, 6, 8);
    assert body[0..1] == [49] && body[6..8] == [45, 54] && body[4..6] == CRLF && body[3..4] == [97];
    OneIsRead();
    MinusSixIsRead();
  }

  lemma OneIsRead()
    ensures ParseHex(UpTo([49], SEMICOLON)) == Some(1)
  {
    var one: seq<Byte> := [49];
    assert one[1..] == [];
    assert UpTo(one, SEMICOLON) == one;
    assert one + [] == one;
    ParsesDigits(one, []);
    assert HexValue(one, 0) == 1;
  }

  lemma MinusSixIsRead()
    ensures ParseHex(UpTo([45, 54], SEMICOLON)) == Some(-6)
  {
    var six: seq<Byte> := [54];
    var token: seq<Byte> := [45, 54];
    assert token[1..] == six && six[1..] == [];
    assert UpTo(six, SEMICOLON) == six;
    assert UpTo(token, SEMICOLON) == token;
    assert StripLeft(token) == token && StripRight(token) == token;
    DigitsRead(six, 0, false);
    assert HexValue(six, 0) == 6;
  }

  /** The loop is not bounded on every body: a negative size can rewind the cursor for ever. */
  lemma {:induction false} RewindingNeverEnds(rounds: nat, decoded: seq<Byte>)
    ensures Run(REWINDING, 0, decoded, rounds) == StillRunning
    ensures Run(REWINDING, 6, decoded, rounds) == StillRunning
    decreases rounds
  {
    if rounds > 0 {
      RewindingRounds();
      RewindingNeverEnds(rounds - 1, decoded + [97]);
      RewindingNeverEnds(rounds - 1, decoded + []);
    }
  }

  // ----- exactly which bodies end -----

  /** The cursor after n rounds, if the loop is still running. */
  function CursorAfter(body: seq<Byte>, n: nat): Option<int> {
    if n == 0 then Some(0)
    else
      var c := CursorAfter(body, n - 1);
      if c.None? then None
      else
        var r := DecodeRound(body, c.value);
        if r.More? then Some(r.cursor) else None
  }

  /** Negative positions count from the end, so a cursor never leaves this window. */
  lemma CursorWindow(body: seq<Byte>, cursor: int)
    ensures var r := DecodeRound(body, cursor); r.More? ==> -|body| <= r.cursor <= |body|
  {
    hide ParseHex, UpTo, FindLine;
  }

  lemma {:induction false} RunsOn(body: seq<Byte>, i: nat, decoded: seq<Byte>, n: nat)
    requires CursorAfter(body, i).Some?
    ensures Run(body, CursorAfter(body, i).value, decoded, n) == StillRunning <==> CursorAfter(body, i + n).Some?
    decreases n
  {
    hide DecodeRound;
    if n > 0 {
      var r := DecodeRound(body, CursorAfter(body, i).value);
      if r.More? {
        assert CursorAfter(body, i + 1) == Some(r.cursor);
        RunsOn(body, i + 1, decoded + r.data, n - 1);
      } else {
        assert CursorAfter(body, i + 1) == None;
        StaysEnded(body, i + 1, i + n);
      }
    }
  }

  lemma {:induction false} StaysEnded(body: seq<Byte>, i: nat, j: nat)
    requires i <= j && CursorAfter(body, i) == None
    ensures CursorAfter(body, j) == None
    decreases j
  {
    hide DecodeRound;
    if i < j { StaysEnded(body, i, j - 1); }
  }

  /** A cursor that comes back comes back for ever. */
  lemma {:induction false} Returns(body: seq<Byte>, i: nat, j: nat, n: nat)
    requires i < j && CursorAfter(body, i).Some? && CursorAfter(body, i) == CursorAfter(body, j)
    ensures CursorAfter(body, n).Some?
    ensures n >= j ==> CursorAfter(body, n) == CursorAfter(body, n - (j - i))
    decreases n
  {
    hide DecodeRound;
    if n > j {
      Returns(body, i, j, n - 1);
      Returns(body, i, j, n - (j - i));
    } else if CursorAfter(body, n).None? {
      StaysEnded(body, n, j);
      assert false;
    }
  }

  /** The cursors of the first n rounds. */
  function Cursors(body: seq<Byte>, n: nat): set<int> {
    if n == 0 then {} else Cursors(body, n - 1) + if CursorAfter(body, n - 1).Some? then {CursorAfter(body, n - 1).value} else {}
  }

  function Window(lo: int, n: nat): set<int> {
    if n == 0 then {} else Window(lo, n - 1) + {lo + n - 1}
  }

  lemma {:induction false} WindowSize(lo: int, n: nat)
    ensures |Window(lo, n)| == n && forall x :: x in Window(lo, n) <==> lo <= x < lo + n
  {
    if n > 0 { WindowSize(lo, n - 1); }
  }

  predicate Repeats(body: seq<Byte>, i: nat, j: nat, n: nat) {
    i < j < n && CursorAfter(body, i).Some? && CursorAfter(body, i) == CursorAfter(body, j)
  }

  ghost predicate Visited(body: seq<Byte>, n: nat, x: int) {
    exists k: nat :: k < n && CursorAfter(body, k) == Some(x)
  }

  /** Rounds that all run on either repeat a cursor or have visited as many cursors as there were rounds. */
  lemma {:induction false} Pigeons(body: seq<Byte>, n: nat) returns (i: nat, j: nat)
    requires n > 0 ==> CursorAfter(body, n - 1).Some?
    ensures Repeats(body, i, j, n) || |Cursors(body, n)| == n
    ensures Cursors(body, n) <= Window(-|body|, 2 * |body| + 1)
    ensures forall x | x in Cursors(body, n) :: Visited(body, n, x)
  {
    hide DecodeRound;
    i, j := 0, 0;
    WindowSize(-|body|, 2 * |body| + 1);
    if n > 0 {
      if n > 1 && CursorAfter(body, n - 2).None? { assert false; }
      i, j := Pigeons(body, n - 1);
      var c := CursorAfter(body, n - 1).value;
      if n > 1 { CursorWindow(body, CursorAfter(body, n - 2).value); }
      if !Repeats(body, i, j, n) && c in Cursors(body, n - 1) {
        assert Visited(body, n - 1, c);
        i :| i < n - 1 && CursorAfter(body, i) == Some(c);
        j := n - 1;
      }
      forall x | x in Cursors(body, n) ensures Visited(body, n, x) {
        if x in Cursors(body, n - 1) {
          assert Visited(body, n - 1, x);
          var k: nat :| k < n - 1 && CursorAfter(body, k) == Some(x);
          assert k < n;
        } else {
          assert CursorAfter(body, n - 1) == Some(x);
        }
      }
    }
  }

  /** The loop ends on a body exactly when it ends within two rounds per byte, plus two. */
  lemma EndsInTimeOrNever(body: seq<Byte>)
    ensures (exists n: nat :: Run(body, 0, [], n) != StillRunning) <==> Run(body, 0, [], 2 * |body| + 2) != StillRunning
  {
    hide DecodeRound, Run;
    var bound := 2 * |body| + 2;
    RunsOn(body, 0, [], bound);
    if CursorAfter(body, bound).Some? {
      if CursorAfter(body, bound - 1).None? { assert false; }
      var i, j := Pigeons(body, bound);
      WindowSize(-|body|, 2 * |body| + 1);
      Fits(Cursors(body, bound), Window(-|body|, 2 * |body| + 1));
      forall n: nat ensures Run(body, 0, [], n) == StillRunning {
        RunsOn(body, 0, [], n);
        Returns(body, i, j, n);
      }
    }
  }

  lemma Fits(a: set<int>, b: set<int>)
    requires a <= b
    ensures |a| <= |b|
  {
    assert b == a + (b - a);
  }

  /** Without a minus sign in any size read so far, the cursor has moved at least once per round. */
  lemma {:induction false} AdvancesEachRound(body: seq<Byte>, n: nat)
    requires CursorAfter(body, n).Some?
    requires forall k: nat | k < n && CursorAfter(body, k).Some? :: MINUS !in SizeToken(body, CursorAfter(body, k).value)
    ensures n <= CursorAfter(body, n).value <= |body|
  {
    hide DecodeRound, SizeToken;
    if n > 0 {
      AdvancesEachRound(body, n - 1);
      CursorAdvances(body, CursorAfter(body, n - 1).value);
    }
  }

  /** A loop that runs for ever has read a size with a minus sign within its first rounds, one per byte and one more. */
  lemma OnlyMinusRunsOn(body: seq<Byte>)
    requires forall n: nat :: Run(body, 0, [], n) == StillRunning
    ensures exists k: nat :: k <= |body| && CursorAfter(body, k).Some? && MINUS in SizeToken(body, CursorAfter(body, k).value)
  {
    hide DecodeRound, SizeToken, Run;
    var n := |body| + 1;
    RunsOn(body, 0, [], n);
    if forall k: nat | k < n && CursorAfter(body, k).Some? :: MINUS !in SizeToken(body, CursorAfter(body, k).value) {
      AdvancesEachRound(body, n);
    }
  }
}
