/** The attachment decoder object and the ranged-read loop that feeds it (src/gmail.rs).
    The server is an arbitrary function of the round, the offset and the count asked for. */
module AttachmentFetch {
  import opened Numbers
  import opened Results
  import opened TransferDecoding

  const ATTACHMENT_CHUNK_BYTES: nat := 1024 * 1024
  const MAX_ATTACHMENT_ENCODED_BYTES: nat := 150 * 1024 * 1024

  class AttachmentDecoder {
    var encoding: TransferEncoding
    var pending: seq<byte>
    var decoded: nat
    var base64Ended: bool

    ghost function State(): Core
      reads this
    {
      Core(pending, base64Ended)
    }

    ghost predicate Valid()
      reads this
    {
      Bounded(encoding, State()) && encoding != Unsupported
    }

    constructor Initial(encoding: TransferEncoding)
      requires encoding != Unsupported
      ensures Valid() && this.encoding == encoding && State() == INITIAL && decoded == 0
    {
      this.encoding, pending, decoded, base64Ended := encoding, [], 0, false;
    }

    static method New(encoding: TransferEncoding) returns (r: Result<AttachmentDecoder, DecodeError>)
      ensures encoding == Unsupported ==> r == Err(InvalidEncoding)
      ensures encoding != Unsupported ==>
                r.Ok? && fresh(r.value) && r.value.Valid() && r.value.encoding == encoding
                && r.value.State() == INITIAL && r.value.decoded == 0
    {
      if encoding == Unsupported {
        return Err(InvalidEncoding);
      }
      var decoder := new AttachmentDecoder.Initial(encoding);
      return Ok(decoder);
    }

    method PushBase64(input: seq<byte>, finalChunk: bool) returns (r: Result<seq<byte>, DecodeError>)
      requires Valid() && encoding == Base64
      modifies this`pending, this`base64Ended
      ensures match Chunk(encoding, old(State()), input, finalChunk)
              case Failed(e) => r == Err(e)
              case Fed(core, out) => r == Ok(out) && State() == core
    {
      hide Feed, HexValue, DecodeGroup;
      ghost var start := State();
      var output: seq<byte> := [];
      FeedNothing(encoding, start);
      for i := 0 to |input|
        invariant Feed(encoding, start, input[..i]) == Fed(State(), output)
        invariant Valid()
      {
        var byte := input[i];
        FeedPrefix(encoding, start, input, i);
        if IsAsciiWhitespace(byte) {
          assert output + [] == output;
        } else {
          if base64Ended {
            return Err(InvalidEncoding);
          }
          pending := pending + [byte];
          if |pending| == 4 {
            match DecodeGroup(pending) {
              case Err(e) => return Err(e);
              case Ok(octets) => output := output + octets;
            }
            base64Ended := pending[2] == EQUALS || pending[3] == EQUALS;
            pending := [];
          } else {
            assert output + [] == output;
          }
        }
      }
      assert input[..|input|] == input;
      if finalChunk && pending != [] {
        if |pending| == 1 {
          return Err(InvalidEncoding);
        }
        ghost var left := pending;
        while |pending| < 4
          invariant |left| <= |pending| <= 4 && pending == left + Pads(|pending| - |left|)
        {
          assert Pads(|pending| - |left|) + [EQUALS] == Pads(|pending| + 1 - |left|);
          pending := pending + [EQUALS];
        }
        match DecodeGroup(pending) {
          case Err(e) => return Err(e);
          case Ok(octets) => output := output + octets;
        }
        base64Ended := true;
        pending := [];
      } else {
        assert output + [] == output;
      }
      return Ok(output);
    }

    method PushQuotedPrintable(input: seq<byte>, finalChunk: bool) returns (r: Result<seq<byte>, DecodeError>)
      requires Valid() && encoding == QuotedPrintable
      modifies this`pending
      ensures match Chunk(encoding, old(State()), input, finalChunk)
              case Failed(e) => r == Err(e)
              case Fed(core, out) => r == Ok(out) && State() == core
    {
      hide Feed, HexValue, DecodeGroup;
      ghost var start := State();
      var output: seq<byte> := [];
      FeedNothing(encoding, start);
      for i := 0 to |input|
        invariant Feed(encoding, start, input[..i]) == Fed(State(), output)
        invariant Valid()
      {
        var byte := input[i];
        FeedPrefix(encoding, start, input, i);
        assert output + [] == output;
        if pending == [] && byte == EQUALS {
          pending := pending + [byte];
        } else if pending == [] {
          output := output + [byte];
        } else if pending == [EQUALS] && byte == LF {
          pending := [];
        } else if pending == [EQUALS] && (byte == CR || HexValue(byte).Some?) {
          pending := pending + [byte];
        } else if pending == [EQUALS, CR] && byte == LF {
          pending := [];
        } else if |pending| == 2 && pending[0] == EQUALS && HexValue(pending[1]).Some? && HexValue(byte).Some? {
          output := output + [HexValue(pending[1]).value * 16 + HexValue(byte).value];
          pending := [];
        } else {
          return Err(InvalidEncoding);
        }
      }
      assert input[..|input|] == input;
      if finalChunk && pending != [] {
        return Err(InvalidEncoding);
      }
      assert output + [] == output;
      return Ok(output);
    }

    method Push(input: seq<byte>, finalChunk: bool) returns (r: Result<seq<byte>, DecodeError>)
      requires Valid()
      modifies this
      ensures match Chunk(old(encoding), old(State()), input, finalChunk)
              case Failed(e) => r == Err(e)
              case Fed(core, out) =>
                if old(decoded) + |out| > MAX_ATTACHMENT_BYTES then r == Err(TooLarge)
                else r == Ok(out) && Valid() && State() == core && decoded == old(decoded) + |out|
                     && encoding == old(encoding)
    {
      var output: seq<byte>;
      match encoding {
        case SevenBit | EightBit | Binary =>
          Identity(encoding, State(), input);
          output := input;
          assert output + [] == output;
        case Base64 =>
          var pushed := PushBase64(input, finalChunk);
          if pushed.Err? { return Err(pushed.error); }
          output := pushed.value;
        case QuotedPrintable =>
          var pushed := PushQuotedPrintable(input, finalChunk);
          if pushed.Err? { return Err(pushed.error); }
          output := pushed.value;
        case Unsupported =>
          return Err(InvalidEncoding);
      }
      if decoded + |output| > U64_MAX {
        return Err(TooLarge);
      }
      decoded := decoded + |output|;
      if decoded > MAX_ATTACHMENT_BYTES {
        return Err(TooLarge);
      }
      return Ok(output);
    }
  }

  lemma FeedPrefix(encoding: TransferEncoding, st: Core, input: seq<byte>, i: nat)
    requires i < |input|
    ensures Feed(encoding, st, input[..i + 1]) == Continue(encoding, Feed(encoding, st, input[..i]), input[i])
    ensures Feed(encoding, st, input[..i + 1]).Failed? ==>
            Feed(encoding, st, input) == Feed(encoding, st, input[..i + 1])
  {
    hide FeedByte;
    assert input[..i + 1][..i] == input[..i];
    assert input == input[..i + 1] + input[i + 1..];
    FeedAppend(encoding, st, input[..i + 1], input[i + 1..]);
  }

  // ----- the ranged-read loop -----

  datatype FetchError = Protocol | MessageMissing | MailboxChanged | WriteFailed | Decoding(error: DecodeError)

  /** What one UID FETCH brings back: nothing, the wrong message or several, the right message
      without the section, or a fragment of the section. */
  datatype Reply = NoMessage | OtherMessages | NoSection | Fragment(bytes: seq<byte>)

  type Server = (nat, nat, nat) -> Reply

  function Asked(total: nat, offset: nat): (count: nat)
    requires offset < total
    ensures 0 < count <= total - offset
  {
    if total - offset < ATTACHMENT_CHUNK_BYTES then total - offset else ATTACHMENT_CHUNK_BYTES
  }

  /** The fragments the server supplies from `offset` on, or why the reads stop. */
  function Fragments(serve: Server, total: nat, round: nat, offset: nat): Result<seq<seq<byte>>, FetchError>
    decreases total - offset
  {
    if offset >= total then Ok([])
    else
      match serve(round, offset, Asked(total, offset))
      case NoMessage => Err(MessageMissing)
      case OtherMessages | NoSection => Err(Protocol)
      case Fragment(bytes) =>
        if bytes == [] || |bytes| > Asked(total, offset) then Err(Protocol)
        else After([bytes], Fragments(serve, total, round + 1, offset + |bytes|))
  }

  function After(done: seq<seq<byte>>, rest: Result<seq<seq<byte>>, FetchError>): Result<seq<seq<byte>>, FetchError> {
    match rest
    case Err(e) => Err(e)
    case Ok(more) => Ok(done + more)
  }

  lemma FragmentsStep(serve: Server, total: nat, round: nat, offset: nat, bytes: seq<byte>)
    requires offset < total && serve(round, offset, Asked(total, offset)) == Fragment(bytes)
    requires 0 < |bytes| <= Asked(total, offset)
    ensures Fragments(serve, total, round, offset)
         == After([bytes], Fragments(serve, total, round + 1, offset + |bytes|))
  {
  }

  lemma AfterAfter(a: seq<seq<byte>>, b: seq<seq<byte>>, rest: Result<seq<seq<byte>>, FetchError>)
    ensures After(a, After(b, rest)) == After(a + b, rest)
  {
    assert rest.Ok? ==> a + (b + rest.value) == (a + b) + rest.value;
  }

  function Flatten(fragments: seq<seq<byte>>): seq<byte> {
    if fragments == [] then [] else Flatten(fragments[..|fragments| - 1]) + fragments[|fragments| - 1]
  }

  lemma {:induction false} FlattenCons(first: seq<byte>, rest: seq<seq<byte>>)
    ensures Flatten([first] + rest) == first + Flatten(rest)
  {
    var all := [first] + rest;
    if rest == [] {
      assert all == [first] && all[..0] == [];
    } else {
      var front := rest[..|rest| - 1];
      FlattenCons(first, front);
      assert all[..|all| - 1] == [first] + front;
    }
  }

  /** A server that answers from `section`, in non-empty fragments no longer than asked. */
  ghost predicate Honest(serve: Server, section: seq<byte>) {
    forall round: nat, offset: nat, count: nat | 0 < count && offset + count <= |section| ::
      var reply := serve(round, offset, count);
      reply.Fragment? && 0 < |reply.bytes| <= count && reply.bytes == section[offset..offset + |reply.bytes|]
  }

  /** Whatever sizes an honest server chooses, the fragments join up to the section. */
  lemma {:induction false} HonestFragments(serve: Server, section: seq<byte>, round: nat, offset: nat)
    requires Honest(serve, section) && offset <= |section|
    ensures var fs := Fragments(serve, |section|, round, offset);
            fs.Ok? && Flatten(fs.value) == section[offset..]
    decreases |section| - offset
  {
    if offset < |section| {
      var bytes := serve(round, offset, Asked(|section|, offset)).bytes;
      FragmentsStep(serve, |section|, round, offset, bytes);
      hide Fragments, Asked, Flatten;
      HonestFragments(serve, section, round + 1, offset + |bytes|);
      FlattenCons(bytes, Fragments(serve, |section|, round + 1, offset + |bytes|).value);
      assert section[offset..] == bytes + section[offset + |bytes|..];
    }
  }

  lemma {:induction false} FlattenAppend(a: seq<seq<byte>>, b: seq<seq<byte>>)
    ensures Flatten(a + b) == Flatten(a) + Flatten(b)
  {
    if b == [] {
      assert a + b == a;
    } else {
      var front := b[..|b| - 1];
      FlattenAppend(a, front);
      assert (a + b)[..|a + b| - 1] == a + front;
    }
  }

  ghost predicate AllTaken(sink: nat -> bool, n: nat) {
    forall i: nat | i < n :: sink(i)
  }

  /** The final flag goes to the last chunk only. */
  ghost predicate FinalOnlyLast(finals: seq<bool>) {
    forall i | 0 <= i < |finals| - 1 :: !finals[i]
  }

  /** The download succeeds: the reads supply the section, its decoding succeeds, every write is taken. */
  ghost predicate Succeeds(encoding: TransferEncoding, supplied: Result<seq<seq<byte>>, FetchError>,
                           sink: nat -> bool) {
    && supplied.Ok?
    && DecodeSection(encoding, Flatten(supplied.value)).Ok?
    && AllTaken(sink, |supplied.value|)
  }

  /** `done` has been read; the rest is what the server supplies from `offset` on. */
  ghost predicate ReadSoFar(serve: Server, total: nat, done: seq<seq<byte>>, offset: nat) {
    && offset == |Flatten(done)| <= total
    && After(done, Fragments(serve, total, |done|, offset)) == Fragments(serve, total, 0, 0)
  }

  lemma ReadNothing(serve: Server, total: nat)
    ensures ReadSoFar(serve, total, [], 0) && Flatten([]) == []
  {
    var all := Fragments(serve, total, 0, 0);
    assert all.Ok? ==> [] + all.value == all.value;
  }

  lemma FlattenSnoc(done: seq<seq<byte>>, bytes: seq<byte>)
    ensures Flatten(done + [bytes]) == Flatten(done) + bytes
  {
    assert (done + [bytes])[..|done|] == done;
  }

  lemma ReadMore(serve: Server, total: nat, done: seq<seq<byte>>, offset: nat, bytes: seq<byte>)
    requires ReadSoFar(serve, total, done, offset) && offset < total
    requires serve(|done|, offset, Asked(total, offset)) == Fragment(bytes)
    requires 0 < |bytes| <= Asked(total, offset)
    ensures ReadSoFar(serve, total, done + [bytes], offset + |bytes|)
    ensures Flatten(done + [bytes]) == Flatten(done) + bytes
  {
    FragmentsStep(serve, total, |done|, offset, bytes);
    FlattenSnoc(done, bytes);
    hide Fragments, Asked, After, Flatten;
    AfterAfter(done, [bytes], Fragments(serve, total, |done| + 1, offset + |bytes|));
  }

  lemma ReadFails(serve: Server, total: nat, done: seq<seq<byte>>, offset: nat)
    requires ReadSoFar(serve, total, done, offset) && offset < total
    requires var reply := serve(|done|, offset, Asked(total, offset));
             reply.Fragment? ==> reply.bytes == [] || |reply.bytes| > Asked(total, offset)
    ensures Fragments(serve, total, 0, 0).Err?
  {
  }

  lemma ReadAll(serve: Server, total: nat, done: seq<seq<byte>>)
    requires ReadSoFar(serve, total, done, total)
    ensures Fragments(serve, total, 0, 0) == Ok(done)
  {
    assert done + [] == done;
  }

  predicate Refused(fed: Fed) {
    fed.Failed? || |fed.out| > MAX_ATTACHMENT_BYTES
  }

  /** A chunk the decoder refuses dooms the section whatever follows. */
  lemma RefusalIsFinal(encoding: TransferEncoding, serve: Server, total: nat, done: seq<seq<byte>>, offset: nat,
                       sink: nat -> bool)
    requires ReadSoFar(serve, total, done, offset)
    requires Refused(Chunk(encoding, INITIAL, Flatten(done), offset >= total))
    ensures !Succeeds(encoding, Fragments(serve, total, 0, 0), sink)
  {
    hide Chunk;
    var rest := Fragments(serve, total, |done|, offset);
    if rest.Ok? {
      FlattenAppend(done, rest.value);
      if offset >= total {
        assert done + [] == done;
      } else {
        ChunkSplit(encoding, INITIAL, Flatten(done), Flatten(rest.value), true);
      }
    }
  }

  lemma NotTaken(encoding: TransferEncoding, serve: Server, total: nat, done: seq<seq<byte>>, offset: nat,
                 sink: nat -> bool)
    requires ReadSoFar(serve, total, done, offset) && done != [] && !sink(|done| - 1)
    ensures !Succeeds(encoding, Fragments(serve, total, 0, 0), sink)
  {
  }

  lemma Decoded(encoding: TransferEncoding, section: seq<byte>, core: Core, out: seq<byte>)
    requires Chunk(encoding, INITIAL, section, true) == Fed(core, out) && |out| <= MAX_ATTACHMENT_BYTES
    ensures DecodeSection(encoding, section) == Ok(out)
  {
  }

  lemma NothingRead(encoding: TransferEncoding, final: bool)
    requires encoding != Unsupported
    ensures Chunk(encoding, INITIAL, [], final) == Fed(INITIAL, [])
  {
  }

  /** Why a download failed after `read` was read: each cause is told by its own error. */
  ghost predicate Explains(error: FetchError, sameMailbox: bool, identityMatches: bool, encoding: TransferEncoding,
                           total: nat, serve: Server, sink: nat -> bool, read: seq<seq<byte>>)
  {
    var section := Flatten(read);
    match error
    case MailboxChanged => !sameMailbox
    case MessageMissing =>
      (total == 0 && !identityMatches)
      || (|section| < total && serve(|read|, |section|, Asked(total, |section|)).NoMessage?)
    case Protocol =>
      |section| < total
      && Malformed(serve(|read|, |section|, Asked(total, |section|)), Asked(total, |section|))
    case WriteFailed => read != [] && !sink(|read| - 1)
    case Decoding(e) =>
      if encoding == Unsupported then e == InvalidEncoding
      else RefusedWith(Chunk(encoding, INITIAL, section, |section| >= total), e)
  }

  /** A reply about other messages, without the section, or with no octets or more than were asked for. */
  predicate Malformed(reply: Reply, count: nat) {
    match reply
    case NoMessage => false
    case OtherMessages => true
    case NoSection => true
    case Fragment(bytes) => |bytes| == 0 || |bytes| > count
  }

  predicate RefusedWith(fed: Fed, error: DecodeError) {
    match fed
    case Failed(e) => error == e
    case Fed(_, out) => error == TooLarge && |out| > MAX_ATTACHMENT_BYTES
  }

  /** What `ReadSoFar` says of the fragments read. */
  ghost predicate ReadShape(serve: Server, total: nat, read: seq<seq<byte>>, offset: nat) {
    && offset == |Flatten(read)| <= total
    && After(read, Fragments(serve, total, |read|, |Flatten(read)|)) == Fragments(serve, total, 0, 0)
  }

  lemma ShapeOfRead(serve: Server, total: nat, read: seq<seq<byte>>, offset: nat)
    requires ReadSoFar(serve, total, read, offset)
    ensures ReadShape(serve, total, read, offset)
  {
  }

  lemma EarlyRefusals(sameMailbox: bool, identityMatches: bool, encoding: TransferEncoding, total: nat, serve: Server,
                      sink: nat -> bool)
    ensures !sameMailbox ==>
              Explains(MailboxChanged, sameMailbox, identityMatches, encoding, total, serve, sink, [])
    ensures encoding == Unsupported ==>
              Explains(Decoding(InvalidEncoding), sameMailbox, identityMatches, encoding, total, serve, sink, [])
    ensures total == 0 && !identityMatches ==>
              Explains(MessageMissing, sameMailbox, identityMatches, encoding, total, serve, sink, [])
  {
  }

  lemma ReadFailsAs(sameMailbox: bool, identityMatches: bool, encoding: TransferEncoding, total: nat, serve: Server,
                    sink: nat -> bool, read: seq<seq<byte>>, offset: nat)
    requires offset == |Flatten(read)| < total
    ensures var reply, count := serve(|read|, offset, Asked(total, offset)), Asked(total, offset);
            && (reply.NoMessage? ==>
                  Explains(MessageMissing, sameMailbox, identityMatches, encoding, total, serve, sink, read))
            && (Malformed(reply, count) ==>
                  Explains(Protocol, sameMailbox, identityMatches, encoding, total, serve, sink, read))
  {
  }

  lemma WriteFailsAs(sameMailbox: bool, identityMatches: bool, encoding: TransferEncoding, total: nat, serve: Server,
                     sink: nat -> bool, read: seq<seq<byte>>)
    requires read != [] && !sink(|read| - 1)
    ensures Explains(WriteFailed, sameMailbox, identityMatches, encoding, total, serve, sink, read)
  {
  }

  lemma RefusedFor(sameMailbox: bool, identityMatches: bool, encoding: TransferEncoding, total: nat, serve: Server,
                   sink: nat -> bool, read: seq<seq<byte>>, offset: nat, error: DecodeError)
    requires encoding != Unsupported && offset == |Flatten(read)|
    requires RefusedWith(Chunk(encoding, INITIAL, Flatten(read), offset >= total), error)
    ensures Explains(Decoding(error), sameMailbox, identityMatches, encoding, total, serve, sink, read)
  {
    hide Chunk;
  }

  /** The loop of the attachment download. `sink(i)` says whether the i-th write succeeds;
      `finals` records the flag of every decoder call and `read` the fragments taken. */
  method FetchAttachmentInner(sameMailbox: bool, identityMatches: bool, encoding: TransferEncoding, total: nat,
                              serve: Server, sink: nat -> bool)
    returns (r: Result<nat, FetchError>, written: seq<byte>, ghost finals: seq<bool>, ghost read: seq<seq<byte>>)
    ensures FinalOnlyLast(finals) && ReadShape(serve, total, read, |Flatten(read)|)
    ensures r.Err? ==> Explains(r.error, sameMailbox, identityMatches, encoding, total, serve, sink, read)
    ensures r.Ok? && total > 0 ==> finals != [] && finals[|finals| - 1]
    ensures r.Ok? <==>
            && sameMailbox && encoding != Unsupported && (total == 0 ==> identityMatches)
            && Succeeds(encoding, Fragments(serve, total, 0, 0), sink)
    ensures r.Ok? ==> var supplied := Fragments(serve, total, 0, 0);
                      && supplied.Ok?
                      && DecodeSection(encoding, Flatten(supplied.value)) == Ok(written)
                      && r.value == |written|
                      && |finals| == |supplied.value|
    ensures !sameMailbox ==> r == Err(MailboxChanged)
  {
    hide Chunk, DecodeSection, Flatten, Bounded, Fragments, Asked, After, Explains, ReadSoFar;
    written, finals, read := [], [], [];
    ReadNothing(serve, total);
    ShapeOfRead(serve, total, [], 0);
    EarlyRefusals(sameMailbox, identityMatches, encoding, total, serve, sink);
    if !sameMailbox {
      return Err(MailboxChanged), [], [], [];
    }
    var created := AttachmentDecoder.New(encoding);
    if created.Err? {
      return Err(Decoding(created.error)), [], [], [];
    }
    var decoder := created.value;
    if total == 0 && !identityMatches {
      return Err(MessageMissing), [], [], [];
    }
    var offset, round := 0, 0;
    NothingRead(encoding, total == 0);
    while offset < total
      invariant decoder.Valid() && fresh(decoder) && decoder.encoding == encoding
      invariant decoder.decoded == |written| <= MAX_ATTACHMENT_BYTES
      invariant offset <= total && round == |read| == |finals|
      invariant ReadSoFar(serve, total, read, offset) && ReadShape(serve, total, read, offset)
      invariant Chunk(encoding, INITIAL, Flatten(read), offset >= total) == Fed(decoder.State(), written)
      invariant AllTaken(sink, |read|)
      invariant FinalOnlyLast(finals) && (offset < total ==> true !in finals)
      invariant offset == total > 0 ==> finals != [] && finals[|finals| - 1]
      decreases total - offset
    {
      var count := Asked(total, offset);
      var reply := serve(round, offset, count);
      ReadFailsAs(sameMailbox, identityMatches, encoding, total, serve, sink, read, offset);
      if reply.NoMessage? {
        ReadFails(serve, total, read, offset);
        return Err(MessageMissing), written, finals, read;
      }
      if !reply.Fragment? {
        ReadFails(serve, total, read, offset);
        return Err(Protocol), written, finals, read;
      }
      var encoded := reply.bytes;
      if encoded == [] || |encoded| > count {
        ReadFails(serve, total, read, offset);
        return Err(Protocol), written, finals, read;
      }
      ReadMore(serve, total, read, offset, encoded);
      ShapeOfRead(serve, total, read + [encoded], offset + |encoded|);
      ghost var before := Flatten(read);
      read := read + [encoded];
      offset := offset + |encoded|;
      var finalChunk := offset >= total;
      ChunkSplit(encoding, INITIAL, before, encoded, finalChunk);
      ChunkError(encoding, decoder.State(), encoded, finalChunk);
      ChunkError(encoding, INITIAL, before + encoded, finalChunk);
      var decoded := decoder.Push(encoded, finalChunk);
      finals := finals + [finalChunk];
      if decoded.Err? {
        RefusedFor(sameMailbox, identityMatches, encoding, total, serve, sink, read, offset, decoded.error);
        RefusalIsFinal(encoding, serve, total, read, offset, sink);
        return Err(Decoding(decoded.error)), written, finals, read;
      }
      if !sink(round) {
        WriteFailsAs(sameMailbox, identityMatches, encoding, total, serve, sink, read);
        NotTaken(encoding, serve, total, read, offset, sink);
        return Err(WriteFailed), written, finals, read;
      }
      written := written + decoded.value;
      round := round + 1;
    }
    ReadAll(serve, total, read);
    Decoded(encoding, Flatten(read), decoder.State(), written);
    return Ok(decoder.decoded), written, finals, read;
  }

  /** The public entry: refuses what cannot be downloaded, then runs the loop. Against an honest
      server the outcome is that of decoding the whole section at once, however it was cut up. */
  method FetchAttachment(validTarget: bool, sameMailbox: bool, identityMatches: bool,
                         encoding: TransferEncoding, total: nat, serve: Server, sink: nat -> bool)
    returns (r: Result<nat, FetchError>, written: seq<byte>, ghost finals: seq<bool>)
    ensures !validTarget || encoding == Unsupported ==> r == Err(Protocol)
    ensures validTarget && encoding != Unsupported && total > MAX_ATTACHMENT_ENCODED_BYTES ==>
              r == Err(Decoding(TooLarge))
    ensures FinalOnlyLast(finals)
    ensures validTarget && encoding != Unsupported && total <= MAX_ATTACHMENT_ENCODED_BYTES
            && sameMailbox && (total == 0 ==> identityMatches) && (forall i :: sink(i)) ==>
              forall section | |section| == total && Honest(serve, section) ::
                && (r.Ok? <==> DecodeSection(encoding, section).Ok?)
                && (r.Ok? ==> DecodeSection(encoding, section) == Ok(written) && r.value == |written|)
                && (r.Ok? && total > 0 ==> finals != [] && finals[|finals| - 1])
  {
    hide DecodeSection;
    if !validTarget || encoding == Unsupported {
      return Err(Protocol), [], [];
    }
    if total > MAX_ATTACHMENT_ENCODED_BYTES {
      return Err(Decoding(TooLarge)), [], [];
    }
    ghost var read: seq<seq<byte>>;
    r, written, finals, read := FetchAttachmentInner(sameMailbox, identityMatches, encoding, total, serve, sink);
    forall section | |section| == total && Honest(serve, section)
      ensures var fs := Fragments(serve, total, 0, 0); fs.Ok? && Flatten(fs.value) == section
    {
      HonestFragments(serve, section, 0, 0);
      assert section[0..] == section;
    }
  }
}
