/** The content-transfer decoder of src/gmail.rs as a byte transducer, and the
    languages it accepts: section 4 of RFC 4648 (base64) and section 6.7 of
    RFC 2045 (quoted-printable).

    `Feed` is the meaning of the byte loops; `DecodeSection` is one-shot decoding. */
module TransferDecoding {
  import opened Results

  type byte = bv8

  datatype TransferEncoding = SevenBit | EightBit | Binary | Base64 | QuotedPrintable | Unsupported

  datatype DecodeError = InvalidEncoding | TooLarge

  const EQUALS: byte := 0x3D
  const CR: byte := 0x0D
  const LF: byte := 0x0A
  const MAX_ATTACHMENT_BYTES: nat := 100 * 1024 * 1024

  /** What the decoder carries from one byte to the next. */
  datatype Core = Core(pending: seq<byte>, ended: bool)

  const INITIAL := Core([], false)

  /** What has been fed so far: the state reached and the octets put out, or the refusal. */
  datatype Fed = Fed(core: Core, out: seq<byte>) | Failed(error: DecodeError)

  predicate IsAsciiWhitespace(b: byte) {
    b == 0x20 || b == 0x09 || b == 0x0A || b == 0x0C || b == 0x0D
  }

  function HexValue(b: byte): Option<byte> {
    if 0x30 <= b <= 0x39 then Some(b - 0x30)
    else if 0x61 <= b <= 0x66 then Some(b - 0x61 + 10)
    else if 0x41 <= b <= 0x46 then Some(b - 0x41 + 10)
    else None
  }

  function Base64Value(b: byte): Option<byte> {
    if 0x41 <= b <= 0x5A then Some(b - 0x41)
    else if 0x61 <= b <= 0x7A then Some(b - 0x61 + 26)
    else if 0x30 <= b <= 0x39 then Some(b - 0x30 + 52)
    else if b == 0x2B then Some(62)
    else if b == 0x2F then Some(63)
    else if b == EQUALS then Some(0)
    else None
  }

  // The three octets of four sextets, and the four sextets of three octets.
  function Octet0(a: byte, b: byte): byte { (a << 2) | (b >> 4) }
  function Octet1(b: byte, c: byte): byte { (b << 4) | (c >> 2) }
  function Octet2(c: byte, d: byte): byte { (c << 6) | d }
  function Sextet0(x: byte): byte { x >> 2 }
  function Sextet1(x: byte, y: byte): byte { ((x << 4) | (y >> 4)) & 0x3F }
  function Sextet2(y: byte, z: byte): byte { ((y << 2) | (z >> 6)) & 0x3F }
  function Sextet3(z: byte): byte { z & 0x3F }

  lemma BitsRoundTrip(x: byte, y: byte, z: byte)
    ensures Sextet0(x) < 64 && Sextet1(x, y) < 64 && Sextet2(y, z) < 64 && Sextet3(z) < 64
    ensures Octet0(Sextet0(x), Sextet1(x, y)) == x
    ensures Octet1(Sextet1(x, y), Sextet2(y, z)) == y
    ensures Octet2(Sextet2(y, z), Sextet3(z)) == z
  {
  }

  function DecodeGroup(group: seq<byte>): Result<seq<byte>, DecodeError> {
    if |group| != 4 || group[0] == EQUALS || group[1] == EQUALS then Err(InvalidEncoding)
    else if group[2] == EQUALS && group[3] != EQUALS then Err(InvalidEncoding)
    else
      match (Base64Value(group[0]), Base64Value(group[1]), Base64Value(group[2]), Base64Value(group[3]))
      case (Some(a), Some(b), Some(c), Some(d)) =>
        Ok([Octet0(a, b)]
           + (if group[2] != EQUALS then [Octet1(b, c)] else [])
           + (if group[3] != EQUALS then [Octet2(c, d)] else []))
      case _ => Err(InvalidEncoding)
  }

  function Base64Byte(st: Core, b: byte): Fed {
    if IsAsciiWhitespace(b) then Fed(st, [])
    else if st.ended then Failed(InvalidEncoding)
    else
      var group := st.pending + [b];
      if |group| != 4 then Fed(Core(group, false), [])
      else
        match DecodeGroup(group)
        case Err(e) => Failed(e)
        case Ok(o) => Fed(Core([], group[2] == EQUALS || group[3] == EQUALS), o)
  }

  function QuotedPrintableByte(st: Core, b: byte): Fed {
    var p := st.pending;
    if p == [] then
      if b == EQUALS then Fed(Core([b], st.ended), []) else Fed(st, [b])
    else if p == [EQUALS] && b == LF then Fed(Core([], st.ended), [])
    else if p == [EQUALS] && (b == CR || HexValue(b).Some?) then Fed(Core(p + [b], st.ended), [])
    else if p == [EQUALS, CR] && b == LF then Fed(Core([], st.ended), [])
    else if |p| == 2 && p[0] == EQUALS && HexValue(p[1]).Some? && HexValue(b).Some? then
      Fed(Core([], st.ended), [HexValue(p[1]).value * 16 + HexValue(b).value])
    else Failed(InvalidEncoding)
  }

  function FeedByte(encoding: TransferEncoding, st: Core, b: byte): Fed {
    match encoding
    case SevenBit | EightBit | Binary => Fed(st, [b])
    case Base64 => Base64Byte(st, b)
    case QuotedPrintable => QuotedPrintableByte(st, b)
    case Unsupported => Failed(InvalidEncoding)
  }

  /** The transducer over a whole input, from any state. */
  function Feed(encoding: TransferEncoding, st: Core, input: seq<byte>): Fed {
    if input == [] then Fed(st, [])
    else Continue(encoding, Feed(encoding, st, input[..|input| - 1]), input[|input| - 1])
  }

  function Continue(encoding: TransferEncoding, sofar: Fed, b: byte): Fed {
    match sofar
    case Failed(_) => sofar
    case Fed(mid, out) =>
      match FeedByte(encoding, mid, b)
      case Failed(e) => Failed(e)
      case Fed(next, more) => Fed(next, out + more)
  }

  function Padded(pending: seq<byte>): seq<byte>
    requires |pending| <= 4
  {
    pending + Pads(4 - |pending|)
  }

  function Pads(k: nat): (r: seq<byte>)
    ensures |r| == k
  {
    seq(k, i => EQUALS)
  }

  /** The work done on the final chunk once its bytes are consumed. */
  function Finish(encoding: TransferEncoding, st: Core): Fed
    requires |st.pending| < 4
  {
    match encoding
    case Base64 =>
      if st.pending == [] then Fed(st, [])
      else if |st.pending| == 1 then Failed(InvalidEncoding)
      else
        (match DecodeGroup(Padded(st.pending))
         case Err(e) => Failed(e)
         case Ok(o) => Fed(Core([], true), o))
    case QuotedPrintable =>
      if st.pending == [] then Fed(st, []) else Failed(InvalidEncoding)
    case _ => Fed(st, [])
  }

  predicate Bounded(encoding: TransferEncoding, st: Core) {
    match encoding
    case Base64 => |st.pending| < 4
    case QuotedPrintable => |st.pending| < 3
    case _ => st.pending == []
  }

  /** `pending` stays shorter than one group. */
  lemma {:induction false} PendingStaysShort(encoding: TransferEncoding, st: Core, input: seq<byte>)
    requires Bounded(encoding, st)
    ensures var fed := Feed(encoding, st, input); fed.Fed? ==> Bounded(encoding, fed.core)
  {
    if input != [] {
      PendingStaysShort(encoding, st, input[..|input| - 1]);
    }
  }

  /** One call of `push`, its size check apart. */
  function Chunk(encoding: TransferEncoding, st: Core, input: seq<byte>, final: bool): (r: Fed)
    requires Bounded(encoding, st)
    ensures r.Fed? ==> Bounded(encoding, r.core)
    ensures r.Fed? && final ==> r.core.pending == []
  {
    if encoding == Unsupported then Failed(InvalidEncoding)
    else
      PendingStaysShort(encoding, st, input);
      match Feed(encoding, st, input)
      case Failed(e) => Failed(e)
      case Fed(mid, out) =>
        if !final then Fed(mid, out)
        else
          match Finish(encoding, mid)
          case Failed(e) => Failed(e)
          case Fed(last, tail) => Fed(last, out + tail)
  }

  lemma {:induction false} FeedError(encoding: TransferEncoding, st: Core, input: seq<byte>)
    ensures Feed(encoding, st, input).Failed? ==> Feed(encoding, st, input).error == InvalidEncoding
  {
    hide Octet0, Octet1, Octet2, Base64Value, HexValue;
    if input != [] { FeedError(encoding, st, input[..|input| - 1]); }
  }

  /** A chunk is refused for its encoding alone; sizes are checked apart. */
  lemma ChunkError(encoding: TransferEncoding, st: Core, input: seq<byte>, final: bool)
    requires Bounded(encoding, st)
    ensures Chunk(encoding, st, input, final).Failed? ==> Chunk(encoding, st, input, final).error == InvalidEncoding
  {
    hide Feed, Octet0, Octet1, Octet2, Base64Value;
    FeedError(encoding, st, input);
  }

  /** One-shot decoding of a whole encoded section. */
  function DecodeSection(encoding: TransferEncoding, section: seq<byte>): Result<seq<byte>, DecodeError> {
    match Chunk(encoding, INITIAL, section, true)
    case Failed(e) => Err(e)
    case Fed(_, out) => if |out| > MAX_ATTACHMENT_BYTES then Err(TooLarge) else Ok(out)
  }

  // ----- feeding in pieces -----

  function AndThen(encoding: TransferEncoding, first: Fed, input: seq<byte>): Fed {
    match first
    case Failed(_) => first
    case Fed(mid, out) =>
      match Feed(encoding, mid, input)
      case Failed(e) => Failed(e)
      case Fed(next, more) => Fed(next, out + more)
  }

  lemma {:induction false} FeedAppend(encoding: TransferEncoding, st: Core, a: seq<byte>, b: seq<byte>)
    ensures Feed(encoding, st, a + b) == AndThen(encoding, Feed(encoding, st, a), b)
  {
    hide FeedByte;
    if b == [] {
      assert a + b == a;
      var fed := Feed(encoding, st, a);
      assert fed.Fed? ==> fed.out + [] == fed.out;
    } else {
      var front, last := b[..|b| - 1], b[|b| - 1];
      FeedAppend(encoding, st, a, front);
      assert (a + b)[..|a + b| - 1] == a + front;
      var fed := Feed(encoding, st, a);
      if fed.Fed? && Feed(encoding, fed.core, b).Fed? {
        var mid := Feed(encoding, fed.core, front);
        var more := FeedByte(encoding, mid.core, last).out;
        assert (fed.out + mid.out) + more == fed.out + (mid.out + more);
      }
    }
  }

  /** Splitting the input at any point changes neither acceptance nor output. */
  lemma ChunkSplit(encoding: TransferEncoding, st: Core, a: seq<byte>, b: seq<byte>, final: bool)
    requires Bounded(encoding, st)
    ensures var first := Chunk(encoding, st, a, false);
            var whole := Chunk(encoding, st, a + b, final);
            && (first.Failed? ==> whole.Failed?)
            && (first.Fed? ==>
                  var second := Chunk(encoding, first.core, b, final);
                  && (second.Failed? <==> whole.Failed?)
                  && (second.Fed? ==> whole == Fed(second.core, first.out + second.out)))
  {
    hide Feed, Finish;
    FeedAppend(encoding, st, a, b);
    var first := Chunk(encoding, st, a, false);
    if first.Fed? {
      PendingStaysShort(encoding, first.core, b);
      var fed := Feed(encoding, first.core, b);
      if final && fed.Fed? && Finish(encoding, fed.core).Fed? {
        var tail := Finish(encoding, fed.core).out;
        assert (first.out + fed.out) + tail == first.out + (fed.out + tail);
      }
    }
  }

  // ----- quoted-printable: exactly the language of section 6.7 the decoder knows -----

  /** The digit an encoder writes for a value, in either case. */
  function HexChar(v: byte, upper: bool): byte
    requires v < 16
  {
    if v < 10 then v + 0x30 else if upper then v - 10 + 0x41 else v - 10 + 0x61
  }

  lemma HexInverse(v: byte, upper: bool)
    requires v < 16
    ensures HexValue(HexChar(v, upper)) == Some(v)
    ensures HexChar(v, upper) != EQUALS && HexChar(v, upper) != CR && HexChar(v, upper) != LF
  {
  }

  lemma HexOnto(b: byte)
    requires HexValue(b).Some?
    ensures HexValue(b).value < 16 && b == HexChar(HexValue(b).value, 0x41 <= b <= 0x46)
  {
  }

  /** The upper and the lower four bits. */
  lemma Nibbles(octet: byte)
    ensures octet >> 4 < 16 && octet & 0x0F < 16 && (octet >> 4) * 16 + (octet & 0x0F) == octet
  {
  }

  lemma NibblesOf(hi: byte, lo: byte)
    requires hi < 16 && lo < 16
    ensures (hi * 16 + lo) >> 4 == hi && (hi * 16 + lo) & 0x0F == lo
  {
  }

  /** An escape is given by its octet and the cases of its two digits. */
  datatype QpToken = Literal(b: byte) | Escape(octet: byte, upperHi: bool, upperLo: bool) | SoftCrlf | SoftLf
  {
    predicate Valid() {
      Literal? ==> b != EQUALS
    }

    function Render(): seq<byte> {
      match this
      case Literal(b) => [b]
      case Escape(octet, upperHi, upperLo) =>
        Nibbles(octet);
        [EQUALS, HexChar(octet >> 4, upperHi), HexChar(octet & 0x0F, upperLo)]
      case SoftCrlf => [EQUALS, CR, LF]
      case SoftLf => [EQUALS, LF]
    }

    function Meaning(): seq<byte> {
      match this
      case Literal(b) => [b]
      case Escape(octet, _, _) => [octet]
      case _ => []
    }
  }

  ghost predicate ValidTokens(ts: seq<QpToken>) {
    forall t <- ts :: t.Valid()
  }

  function Render(ts: seq<QpToken>): seq<byte> {
    if ts == [] then [] else Render(ts[..|ts| - 1]) + ts[|ts| - 1].Render()
  }

  function Meaning(ts: seq<QpToken>): seq<byte> {
    if ts == [] then [] else Meaning(ts[..|ts| - 1]) + ts[|ts| - 1].Meaning()
  }

  lemma FeedNothing(encoding: TransferEncoding, st: Core)
    ensures Feed(encoding, st, []) == Fed(st, [])
  {
  }

  lemma FeedSnoc(encoding: TransferEncoding, st: Core, front: seq<byte>, b: byte)
    ensures Feed(encoding, st, front + [b]) == Continue(encoding, Feed(encoding, st, front), b)
  {
    hide FeedByte;
    assert (front + [b])[..|front|] == front;
  }

  lemma FeedOne(encoding: TransferEncoding, st: Core, b: byte)
    ensures Feed(encoding, st, [b]) == FeedByte(encoding, st, b)
  {
    assert [b][..0] == [];
    var fed := FeedByte(encoding, st, b);
    assert fed.Fed? ==> [] + fed.out == fed.out;
  }

  lemma FeedTwo(encoding: TransferEncoding, st: Core, a: byte, b: byte)
    ensures Feed(encoding, st, [a, b]) == Continue(encoding, FeedByte(encoding, st, a), b)
  {
    FeedOne(encoding, st, a);
    assert [a, b][..1] == [a];
  }

  lemma FeedThree(encoding: TransferEncoding, st: Core, a: byte, b: byte, c: byte)
    ensures Feed(encoding, st, [a, b, c])
         == Continue(encoding, Continue(encoding, FeedByte(encoding, st, a), b), c)
  {
    FeedTwo(encoding, st, a, b);
    assert [a, b, c][..2] == [a, b];
  }

  lemma FeedEscape(octet: byte, upperHi: bool, upperLo: bool)
    ensures Feed(QuotedPrintable, INITIAL, Escape(octet, upperHi, upperLo).Render()) == Fed(INITIAL, [octet])
  {
    Nibbles(octet);
    HexInverse(octet >> 4, upperHi);
    HexInverse(octet & 0x0F, upperLo);
    hide Feed, HexValue, HexChar, Base64Byte;
    FeedThree(QuotedPrintable, INITIAL, EQUALS, HexChar(octet >> 4, upperHi), HexChar(octet & 0x0F, upperLo));
  }

  lemma FeedToken(t: QpToken)
    requires t.Valid()
    ensures Feed(QuotedPrintable, INITIAL, t.Render()) == Fed(INITIAL, t.Meaning())
  {
    hide Feed;
    match t
    case Literal(b) => FeedOne(QuotedPrintable, INITIAL, b);
    case Escape(octet, upperHi, upperLo) => FeedEscape(octet, upperHi, upperLo);
    case SoftCrlf => FeedThree(QuotedPrintable, INITIAL, EQUALS, CR, LF);
    case SoftLf => FeedTwo(QuotedPrintable, INITIAL, EQUALS, LF);
  }

  lemma {:induction false} FeedTokens(ts: seq<QpToken>)
    requires ValidTokens(ts)
    ensures Feed(QuotedPrintable, INITIAL, Render(ts)) == Fed(INITIAL, Meaning(ts))
  {
    if ts != [] {
      var front, t := ts[..|ts| - 1], ts[|ts| - 1];
      FeedTokens(front);
      FeedToken(t);
      FeedAppend(QuotedPrintable, INITIAL, Render(front), t.Render());
    }
  }

  /** The token a completing byte closes. */
  function Closed(pending: seq<byte>, b: byte): QpToken
    requires |pending| < 3
  {
    if pending == [] then Literal(b)
    else if pending == [EQUALS] then SoftLf
    else if pending == [EQUALS, CR] then SoftCrlf
    else if |pending| == 2 && HexValue(pending[1]).Some? && HexValue(b).Some? then
      Escape(HexValue(pending[1]).value * 16 + HexValue(b).value, 0x41 <= pending[1] <= 0x46, 0x41 <= b <= 0x46)
    else SoftLf
  }

  lemma ClosedEscape(hi: byte, lo: byte)
    requires HexValue(hi).Some? && HexValue(lo).Some?
    ensures Closed([EQUALS, hi], lo).Render() == [EQUALS, hi, lo]
         || hi == CR || hi == LF || hi == EQUALS
  {
    HexOnto(hi);
    HexOnto(lo);
    NibblesOf(HexValue(hi).value, HexValue(lo).value);
    hide HexValue, HexChar;
  }

  lemma ClosedToken(st: Core, b: byte)
    requires Bounded(QuotedPrintable, st) && (st.pending != [] ==> st.pending[0] == EQUALS)
    requires var fed := QuotedPrintableByte(st, b); fed.Fed? && fed.core.pending == []
    ensures var t := Closed(st.pending, b);
            && t.Valid() && t.Render() == st.pending + [b]
            && t.Meaning() == QuotedPrintableByte(st, b).out
            && QuotedPrintableByte(st, b).core.ended == st.ended
  {
    var p := st.pending;
    if |p| == 2 && HexValue(p[1]).Some? && HexValue(b).Some? {
      assert p == [EQUALS, p[1]];
      ClosedEscape(p[1], b);
    }
    hide HexValue, HexChar;
  }

  lemma PendingGrows(st: Core, b: byte)
    requires var fed := QuotedPrintableByte(st, b); fed.Fed? && fed.core.pending != []
    requires st.pending != [] ==> st.pending[0] == EQUALS
    ensures var fed := QuotedPrintableByte(st, b);
            && fed.core == Core(st.pending + [b], st.ended) && fed.out == []
            && fed.core.pending[0] == EQUALS
  {
  }

  ghost predicate Parses(ts: seq<QpToken>, input: seq<byte>, fed: Fed) {
    && ValidTokens(ts) && fed.Fed? && !fed.core.ended
    && input == Render(ts) + fed.core.pending
    && fed.out == Meaning(ts)
    && (fed.core.pending != [] ==> fed.core.pending[0] == EQUALS)
  }

  lemma ParseByte(ts: seq<QpToken>, front: seq<byte>, fed: Fed, b: byte) returns (ts': seq<QpToken>)
    requires Parses(ts, front, fed) && Bounded(QuotedPrintable, fed.core)
    requires Continue(QuotedPrintable, fed, b).Fed?
    ensures Parses(ts', front + [b], Continue(QuotedPrintable, fed, b))
  {
    hide QuotedPrintableByte, Base64Byte, QpToken.Meaning, QpToken.Render, QpToken.Valid, Closed;
    hide Render, Meaning;
    var next := QuotedPrintableByte(fed.core, b);
    assert next == FeedByte(QuotedPrintable, fed.core, b);
    var p := fed.core.pending;
    if next.core.pending == [] {
      ClosedToken(fed.core, b);
      var t := Closed(p, b);
      SnocTokens(ts, t);
      ts' := ts + [t];
      assert (Render(ts) + p) + [b] == Render(ts) + (p + [b]) == Render(ts') + [];
    } else {
      PendingGrows(fed.core, b);
      ts' := ts;
      assert (Render(ts) + p) + [b] == Render(ts) + (p + [b]);
      assert fed.out + [] == fed.out;
    }
  }

  /** Whatever was consumed is a row of tokens followed by the pending bytes. */
  lemma {:induction false} ParseTokens(input: seq<byte>) returns (ts: seq<QpToken>)
    requires Feed(QuotedPrintable, INITIAL, input).Fed?
    ensures Parses(ts, input, Feed(QuotedPrintable, INITIAL, input))
  {
    hide FeedByte;
    ts := [];
    if input != [] {
      var front, b := input[..|input| - 1], input[|input| - 1];
      ts := ParseTokens(front);
      PendingStaysShort(QuotedPrintable, INITIAL, front);
      ts := ParseByte(ts, front, Feed(QuotedPrintable, INITIAL, front), b);
      assert input == front + [b];
    }
  }

  lemma SnocTokens(ts: seq<QpToken>, t: QpToken)
    requires ValidTokens(ts) && t.Valid()
    ensures ValidTokens(ts + [t])
    ensures Render(ts + [t]) == Render(ts) + t.Render()
    ensures Meaning(ts + [t]) == Meaning(ts) + t.Meaning()
  {
    assert (ts + [t])[..|ts|] == ts;
  }

  ghost predicate QuotedPrintableForm(ts: seq<QpToken>, input: seq<byte>, data: seq<byte>) {
    ValidTokens(ts) && Render(ts) == input && Meaning(ts) == data
  }

  /** Quoted-printable decoding yields `data` exactly on the renderings of `data`. */
  lemma QuotedPrintableExact(input: seq<byte>, data: seq<byte>)
    ensures DecodeSection(QuotedPrintable, input) == Ok(data)
       <==> |data| <= MAX_ATTACHMENT_BYTES && exists ts :: QuotedPrintableForm(ts, input, data)
  {
    if ts :| QuotedPrintableForm(ts, input, data) {
      FeedTokens(ts);
      assert data + [] == data;
    }
    if DecodeSection(QuotedPrintable, input) == Ok(data) {
      var ts := ParseTokens(input);
      var fed := Feed(QuotedPrintable, INITIAL, input);
      assert fed.out + [] == fed.out;
      assert Render(ts) + [] == Render(ts);
      assert QuotedPrintableForm(ts, input, data);
    }
  }

  // ----- base64: exactly the language of section 4 of RFC 4648 the decoder knows -----

  /** The characters that may stand anywhere in the text. */
  const BLANKS: string := " \t\n\U{0C}\r"

  predicate Blank(b: byte) {
    b as int as char in BLANKS
  }

  lemma BlankExact(b: byte)
    ensures IsAsciiWhitespace(b) <==> Blank(b)
  {
    assert BLANKS[0] == ' ' && BLANKS[1] == '\t' && BLANKS[2] == '\n' && BLANKS[3] == '\U{0C}' && BLANKS[4] == '\r';
  }

  /** The text without its blanks. */
  function Strip(s: seq<byte>): seq<byte> {
    if s == [] then []
    else Strip(s[..|s| - 1]) + if Blank(s[|s| - 1]) then [] else [s[|s| - 1]]
  }

  predicate Sextets(sx: seq<byte>) {
    forall i | 0 <= i < |sx| :: sx[i] < 64
  }

  function AlphabetChar(v: byte): byte
    requires v < 64
  {
    if v < 26 then v + 0x41
    else if v < 52 then v - 26 + 0x61
    else if v < 62 then v - 52 + 0x30
    else if v == 62 then 0x2B
    else 0x2F
  }

  lemma AlphabetInverse(v: byte)
    requires v < 64
    ensures AlphabetChar(v) != EQUALS && !IsAsciiWhitespace(AlphabetChar(v))
    ensures Base64Value(AlphabetChar(v)) == Some(v)
  {
  }

  lemma AlphabetOnto(b: byte)
    requires Base64Value(b).Some? && b != EQUALS
    ensures Base64Value(b).value < 64 && AlphabetChar(Base64Value(b).value) == b
  {
  }

  function Chars(sx: seq<byte>): (r: seq<byte>)
    requires Sextets(sx)
    ensures |r| == |sx|
  {
    seq(|sx|, i requires 0 <= i < |sx| => AlphabetChar(sx[i]))
  }

  /** The octets whose bits the sextets spell; two bits of a 3-tail and four of a 2-tail are spare. */
  function Pack(sx: seq<byte>): seq<byte> {
    if |sx| < 2 then []
    else if |sx| == 2 then [Octet0(sx[0], sx[1])]
    else if |sx| == 3 then [Octet0(sx[0], sx[1]), Octet1(sx[1], sx[2])]
    else [Octet0(sx[0], sx[1]), Octet1(sx[1], sx[2]), Octet2(sx[2], sx[3])] + Pack(sx[4..])
  }

  /** The RFC 4648 encoder at the level of sextets. */
  function Unpack(data: seq<byte>): seq<byte> {
    if |data| == 0 then []
    else if |data| == 1 then [Sextet0(data[0]), Sextet1(data[0], 0)]
    else if |data| == 2 then [Sextet0(data[0]), Sextet1(data[0], data[1]), Sextet2(data[1], 0)]
    else [Sextet0(data[0]), Sextet1(data[0], data[1]), Sextet2(data[1], data[2]), Sextet3(data[2])]
         + Unpack(data[3..])
  }

  function PadsNeeded(n: nat): nat {
    if n % 4 == 2 then 2 else if n % 4 == 3 then 1 else 0
  }

  /** A base64 spelling: the alphabet characters of the sextets, then `k` of the '=' a padded
      encoder would write. */
  predicate Base64Tail(n: nat, k: nat) {
    n % 4 != 1 && k <= PadsNeeded(n)
  }

  ghost predicate Base64Form(sx: seq<byte>, k: nat, input: seq<byte>, data: seq<byte>) {
    Sextets(sx) && Base64Tail(|sx|, k) && Strip(input) == Chars(sx) + Pads(k) && Pack(sx) == data
  }

  lemma {:induction false} FeedStrip(st: Core, s: seq<byte>)
    ensures Feed(Base64, st, s) == Feed(Base64, st, Strip(s))
  {
    hide DecodeGroup;
    if s != [] {
      var front, b := s[..|s| - 1], s[|s| - 1];
      FeedStrip(st, front);
      BlankExact(b);
      hide IsAsciiWhitespace, Blank;
      var fed := Feed(Base64, st, front);
      if IsAsciiWhitespace(b) {
        assert Strip(s) == Strip(front);
        assert fed.Fed? ==> fed.out + [] == fed.out;
      } else {
        assert (Strip(front) + [b])[..|Strip(front)|] == Strip(front);
      }
    }
  }

  lemma {:induction false} PackAppend(a: seq<byte>, b: seq<byte>)
    requires |a| % 4 == 0
    ensures Pack(a + b) == Pack(a) + Pack(b)
  {
    if a == [] {
      assert a + b == b;
    } else {
      PackAppend(a[4..], b);
      assert (a + b)[4..] == a[4..] + b;
    }
  }

  lemma CharsAppend(a: seq<byte>, b: seq<byte>)
    requires Sextets(a) && Sextets(b)
    ensures Sextets(a + b) && Chars(a + b) == Chars(a) + Chars(b)
  {
  }

  function GroupOctets(vs: seq<byte>): seq<byte>
    requires 2 <= |vs| <= 4
  {
    [Octet0(vs[0], vs[1])]
    + (if |vs| > 2 then [Octet1(vs[1], vs[2])] else [])
    + (if |vs| > 3 then [Octet2(vs[2], vs[3])] else [])
  }

  lemma PackGroup(vs: seq<byte>)
    requires 2 <= |vs| <= 4
    ensures Pack(vs) == GroupOctets(vs)
  {
    if |vs| == 4 { assert Pack(vs[4..]) == []; }
  }

  /** The sextets a decodable group spells. */
  lemma GroupSpells(group: seq<byte>) returns (vs: seq<byte>)
    requires DecodeGroup(group).Ok?
    ensures 2 <= |vs| <= 4 && Sextets(vs)
    ensures group == Chars(vs) + Pads(4 - |vs|)
    ensures DecodeGroup(group) == Ok(Pack(vs))
    ensures |vs| < 4 <==> group[3] == EQUALS
    ensures |vs| == 2 <==> group[2] == EQUALS
  {
    hide AlphabetChar, Octet0, Octet1, Octet2, Pack;
    var n := if group[2] == EQUALS then 2 else if group[3] == EQUALS then 3 else 4;
    forall i | 0 <= i < n
      ensures Base64Value(group[i]).Some? && Base64Value(group[i]).value < 64
              && AlphabetChar(Base64Value(group[i]).value) == group[i]
    {
      AlphabetOnto(group[i]);
    }
    hide Base64Value;
    vs := seq(n, i requires 0 <= i < n => Base64Value(group[i]).value);
    PackGroup(vs);
  }

  lemma PadValue()
    ensures Base64Value(EQUALS) == Some(0)
  {
  }

  lemma SpellingDecodes(vs: seq<byte>)
    requires 2 <= |vs| <= 4 && Sextets(vs)
    ensures var group := Chars(vs) + Pads(4 - |vs|);
            DecodeGroup(group) == Ok(Pack(vs)) && (|vs| < 4 <==> group[3] == EQUALS)
            && (|vs| == 2 <==> group[2] == EQUALS)
  {
    hide AlphabetChar, Octet0, Octet1, Octet2, Pack, Base64Value;
    forall i | 0 <= i < |vs| ensures Base64Value(Chars(vs)[i]) == Some(vs[i]) && Chars(vs)[i] != EQUALS {
      AlphabetInverse(vs[i]);
    }
    PadValue();
    PackGroup(vs);
  }

  ghost predicate Solid(s: seq<byte>) {
    forall i | 0 <= i < |s| :: !IsAsciiWhitespace(s[i])
  }

  lemma {:induction false} StripIsSolid(s: seq<byte>)
    ensures Solid(Strip(s))
  {
    if s != [] {
      StripIsSolid(s[..|s| - 1]);
      BlankExact(s[|s| - 1]);
      hide IsAsciiWhitespace, Blank;
    }
  }

  /** Up to four solid bytes from a group boundary. */
  lemma {:induction false} FeedGroup(group: seq<byte>)
    requires |group| <= 4 && Solid(group)
    ensures Feed(Base64, INITIAL, group)
         == if |group| < 4 then Fed(Core(group, false), [])
            else match DecodeGroup(group)
                 case Err(e) => Failed(e)
                 case Ok(o) => Fed(Core([], group[2] == EQUALS || group[3] == EQUALS), o)
  {
    FeedNothing(Base64, INITIAL);
    hide DecodeGroup, IsAsciiWhitespace, Feed, QuotedPrintableByte;
    if group != [] {
      var front, b := group[..|group| - 1], group[|group| - 1];
      FeedGroup(front);
      assert front + [b] == group;
      FeedSnoc(Base64, INITIAL, front, b);
      if |group| == 4 && DecodeGroup(group).Ok? {
        assert [] + DecodeGroup(group).value == DecodeGroup(group).value;
      }
    }
  }

  lemma SolidChars(sx: seq<byte>)
    requires Sextets(sx)
    ensures Solid(Chars(sx))
  {
    forall i | 0 <= i < |sx| ensures !IsAsciiWhitespace(Chars(sx)[i]) {
      AlphabetInverse(sx[i]);
    }
  }

  lemma {:induction false} FeedChars(sx: seq<byte>)
    requires Sextets(sx) && |sx| % 4 == 0
    ensures Feed(Base64, INITIAL, Chars(sx)) == Fed(INITIAL, Pack(sx))
  {
    hide DecodeGroup, AlphabetChar, FeedByte;
    if sx != [] {
      var front, group := sx[..|sx| - 4], sx[|sx| - 4..];
      assert sx == front + group;
      FeedChars(front);
      CharsAppend(front, group);
      FeedAppend(Base64, INITIAL, Chars(front), Chars(group));
      SolidChars(group);
      FeedGroup(Chars(group));
      SpellingDecodes(group);
      assert Chars(group) + Pads(0) == Chars(group);
      PackAppend(front, group);
    }
  }

  lemma FinishTail(vs: seq<byte>, k: nat)
    requires Sextets(vs) && |vs| < 4 && Base64Tail(|vs|, k)
    ensures var fed := Feed(Base64, INITIAL, Chars(vs) + Pads(k));
            && fed.Fed? && |fed.core.pending| < 4
            && var last := Finish(Base64, fed.core); last.Fed? && fed.out + last.out == Pack(vs)
  {
    hide DecodeGroup, AlphabetChar, Feed, Chars, Pack;
    var group := Chars(vs) + Pads(k);
    SolidChars(vs);
    SolidPads(k);
    if vs == [] {
      FeedGroup([]);
      PackNothing();
      assert group == [];
    } else {
      SpellingDecodes(vs);
      FeedGroup(group);
      assert Chars(vs) + Pads(4 - |vs|) == group + Pads(4 - |group|);
      assert group + Pads(0) == group;
      assert Pack(vs) + [] == Pack(vs) == [] + Pack(vs);
    }
  }

  lemma SolidPads(k: nat)
    ensures Solid(Pads(k))
  {
  }

  lemma PackNothing()
    ensures Pack([]) == []
  {
  }

  /** Completeness: every spelling decodes to the octets it packs. */
  lemma SpellingFeeds(sx: seq<byte>, k: nat, input: seq<byte>)
    requires Sextets(sx) && Base64Tail(|sx|, k) && Strip(input) == Chars(sx) + Pads(k)
    ensures var fed := Chunk(Base64, INITIAL, input, true); fed.Fed? && fed.out == Pack(sx)
  {
    hide DecodeGroup, AlphabetChar, FeedByte, Pack, Strip, Feed, Finish, Chars;
    var n := |sx| - |sx| % 4;
    var front, tail := sx[..n], sx[n..];
    var ending := Chars(tail) + Pads(k);
    assert sx == front + tail;
    CharsAppend(front, tail);
    assert Strip(input) == Chars(front) + ending;
    FeedStrip(INITIAL, input);
    FeedChars(front);
    FeedAppend(Base64, INITIAL, Chars(front), ending);
    FinishTail(tail, k);
    PackAppend(front, tail);
    var fed := Feed(Base64, INITIAL, ending);
    assert Feed(Base64, INITIAL, input) == Fed(fed.core, Pack(front) + fed.out);
    assert (Pack(front) + fed.out) + Finish(Base64, fed.core).out == Pack(sx);
  }

  /** What has been read spells whole groups, then the pending bytes, or ended in a padded group. */
  ghost predicate Spelled(sx: seq<byte>, t: seq<byte>, fed: Fed) {
    && Sextets(sx) && fed.Fed? && fed.out == Pack(sx)
    && (!fed.core.ended ==> |sx| % 4 == 0 && |fed.core.pending| < 4
                            && t == Chars(sx) + fed.core.pending)
    && (fed.core.ended ==> |sx| % 4 >= 2 && fed.core.pending == []
                           && t == Chars(sx) + Pads(PadsNeeded(|sx|)))
  }

  lemma SpellByte(sx: seq<byte>, t: seq<byte>, fed: Fed, b: byte) returns (sx': seq<byte>)
    requires Spelled(sx, t, fed) && !IsAsciiWhitespace(b)
    requires Continue(Base64, fed, b).Fed?
    ensures Spelled(sx', t + [b], Continue(Base64, fed, b))
  {
    hide DecodeGroup, AlphabetChar, Pack, IsAsciiWhitespace;
    var group := fed.core.pending + [b];
    if |group| < 4 {
      sx' := sx;
      assert fed.out + [] == fed.out;
    } else {
      var vs := GroupSpells(group);
      sx' := sx + vs;
      PackAppend(sx, vs);
      CharsAppend(sx, vs);
      assert t + [b] == Chars(sx) + group;
      if |vs| == 4 {
        assert group[3] != EQUALS && group[2] != EQUALS;
        assert t + [b] == Chars(sx') + [];
      } else {
        assert t + [b] == Chars(sx') + Pads(4 - |vs|);
      }
    }
  }

  lemma {:induction false} SpellStripped(t: seq<byte>) returns (sx: seq<byte>)
    requires Solid(t) && Feed(Base64, INITIAL, t).Fed?
    ensures Spelled(sx, t, Feed(Base64, INITIAL, t))
  {
    hide FeedByte, Pack, Chars;
    sx := [];
    PackNothing();
    if t != [] {
      var front, b := t[..|t| - 1], t[|t| - 1];
      sx := SpellStripped(front);
      sx := SpellByte(sx, front, Feed(Base64, INITIAL, front), b);
      assert t == front + [b];
    }
  }

  lemma SpelledFinish(sx: seq<byte>, t: seq<byte>, fed: Fed) returns (sx': seq<byte>, k: nat)
    requires Spelled(sx, t, fed)
    requires Finish(Base64, fed.core).Fed?
    ensures Sextets(sx') && Base64Tail(|sx'|, k) && t == Chars(sx') + Pads(k)
    ensures Pack(sx') == fed.out + Finish(Base64, fed.core).out
  {
    hide DecodeGroup, AlphabetChar, Pack, Chars;
    var p := fed.core.pending;
    if p == [] {
      sx' := sx;
      k := if fed.core.ended then PadsNeeded(|sx|) else 0;
      assert t == Chars(sx) + Pads(k);
    } else {
      var vs := GroupSpells(Padded(p));
      k := |p| - |vs|;
      PackAppend(sx, vs);
      CharsAppend(sx, vs);
      assert p == Padded(p)[..|p|] == Chars(vs) + Pads(k);
      assert t == (Chars(sx) + Chars(vs)) + Pads(k);
      sx' := sx + vs;
    }
  }

  /** Soundness: whatever decodes is a spelling of the octets it decodes to. */
  lemma FedIsSpelled(input: seq<byte>) returns (sx: seq<byte>, k: nat)
    requires Chunk(Base64, INITIAL, input, true).Fed?
    ensures Base64Form(sx, k, input, Chunk(Base64, INITIAL, input, true).out)
  {
    hide Strip, Feed, Finish, Pack, Chars;
    var t := Strip(input);
    FeedStrip(INITIAL, input);
    StripIsSolid(input);
    sx := SpellStripped(t);
    sx, k := SpelledFinish(sx, t, Feed(Base64, INITIAL, t));
  }

  /** Base64 decoding yields `data` exactly on the spellings of `data`: ASCII whitespace anywhere,
      trailing '=' present or dropped. */
  lemma Base64Exact(input: seq<byte>, data: seq<byte>)
    ensures DecodeSection(Base64, input) == Ok(data)
       <==> |data| <= MAX_ATTACHMENT_BYTES && exists sx, k :: Base64Form(sx, k, input, data)
  {
    hide Chunk, Chars, Pack, Strip, Base64Tail, Sextets;
    if sx, k :| Base64Form(sx, k, input, data) {
      SpellingFeeds(sx, k, input);
    }
    if DecodeSection(Base64, input) == Ok(data) {
      var sx, k := FedIsSpelled(input);
    }
  }

  // ----- decoding undoes encoding -----

  /** Packing undoes unpacking, and an encoder never leaves a lone sextet. */
  lemma {:induction false} PackUnpack(data: seq<byte>)
    ensures Sextets(Unpack(data)) && |Unpack(data)| % 4 != 1
    ensures Pack(Unpack(data)) == data
  {
    hide Octet0, Octet1, Octet2, Sextet0, Sextet1, Sextet2, Sextet3;
    if |data| == 1 {
      BitsRoundTrip(data[0], 0, 0);
    } else if |data| == 2 {
      BitsRoundTrip(data[0], data[1], 0);
    } else if |data| > 2 {
      BitsRoundTrip(data[0], data[1], data[2]);
      PackUnpack(data[3..]);
      assert Unpack(data)[4..] == Unpack(data[3..]);
    }
  }

  /** The encoder of section 4 of RFC 4648. */
  function Encode64(data: seq<byte>): seq<byte> {
    PackUnpack(data);
    Chars(Unpack(data)) + Pads(PadsNeeded(|Unpack(data)|))
  }

  /** Any octets up to the size limit are recovered from their base64 text, whitespace inserted
      anywhere and any number of the trailing '=' dropped. */
  lemma Base64RoundTrip(data: seq<byte>, dropped: nat, text: seq<byte>)
    requires |data| <= MAX_ATTACHMENT_BYTES
    requires dropped <= PadsNeeded(|Unpack(data)|)
    requires Strip(text) == Encode64(data)[..|Encode64(data)| - dropped]
    ensures DecodeSection(Base64, text) == Ok(data)
  {
    hide AlphabetChar, Unpack, Pack, DecodeSection, Strip;
    PackUnpack(data);
    var sx, k := Unpack(data), PadsNeeded(|Unpack(data)|) - dropped;
    assert Encode64(data)[..|Encode64(data)| - dropped] == Chars(sx) + Pads(k);
    assert Base64Form(sx, k, text, data);
    Base64Exact(text, data);
  }

  /** Every octet is recovered from its two hexadecimal digits, each in either case. */
  lemma EscapeDecodes(octet: byte, upperHi: bool, upperLo: bool)
    ensures octet >> 4 < 16 && octet & 0x0F < 16
    ensures DecodeSection(QuotedPrintable, [EQUALS, HexChar(octet >> 4, upperHi), HexChar(octet & 0x0F, upperLo)])
         == Ok([octet])
  {
    Nibbles(octet);
    hide DecodeSection, HexChar;
    var t := Escape(octet, upperHi, upperLo);
    assert [] + t.Render() == [EQUALS, HexChar(octet >> 4, upperHi), HexChar(octet & 0x0F, upperLo)];
    OneToken(t);
    QuotedPrintableRoundTrip([octet], [t]);
  }

  lemma OneToken(t: QpToken)
    ensures Render([t]) == [] + t.Render() && Meaning([t]) == t.Meaning()
  {
    hide QpToken.Render, QpToken.Meaning;
    assert [t][..0] == [];
  }

  /** The identity encodings pass any octets up to the limit through; an unsupported one is always refused. */
  lemma IdentityExact(encoding: TransferEncoding, section: seq<byte>)
    requires encoding != Base64 && encoding != QuotedPrintable
    ensures DecodeSection(encoding, section)
         == if encoding == Unsupported then Err(InvalidEncoding)
            else if |section| > MAX_ATTACHMENT_BYTES then Err(TooLarge) else Ok(section)
  {
    if encoding != Unsupported { Identity(encoding, INITIAL, section); }
    assert section + [] == section;
  }

  lemma {:induction false} Identity(encoding: TransferEncoding, st: Core, input: seq<byte>)
    requires encoding.SevenBit? || encoding.EightBit? || encoding.Binary?
    ensures Feed(encoding, st, input) == Fed(st, input)
  {
    hide Base64Byte, QuotedPrintableByte;
    if input != [] {
      Identity(encoding, st, input[..|input| - 1]);
    }
  }

  /** A quoted-printable encoder that escapes '=' (and may escape anything else) is undone. */
  lemma QuotedPrintableRoundTrip(data: seq<byte>, ts: seq<QpToken>)
    requires |data| <= MAX_ATTACHMENT_BYTES
    requires ValidTokens(ts) && Meaning(ts) == data
    ensures DecodeSection(QuotedPrintable, Render(ts)) == Ok(data)
  {
    assert QuotedPrintableForm(ts, Render(ts), data);
    QuotedPrintableExact(Render(ts), data);
  }
}
