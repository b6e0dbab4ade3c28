/** Newline framing over a byte stream that arrives in arbitrary pieces, with silences in between. */
module Framing {
  import opened Common

  newtype Byte = b: int | 0 <= b < 256

  const NEWLINE: Byte := 10

  // ------------------------------------------------------------ the message codec

  /** The JSON encoder and decoder. `decode` is None where json.loads raises ValueError; `null` is the value
      that JSON's null stands for, which is Python's None. */
  datatype Codec<!M> = Codec(encode: M -> seq<Byte>, decode: seq<Byte> -> Option<M>, null_: M)

  /** What the framing needs of JSON: an encoding holds no raw newline, and decodes to what was encoded. */
  ghost predicate Faithful<M(!new)>(c: Codec<M>) {
    forall m: M :: NEWLINE !in c.encode(m) && c.decode(c.encode(m)) == Some(m)
  }

  /** Such codecs exist: here is one for the JSON values false, which stands in for null, and true. */
  lemma SomeCodecIsFaithful() returns (c: Codec<bool>)
    ensures Faithful(c)
  {
    c := Codec((b: bool) => if b then [49] else [48],
               (line: seq<Byte>) => if line == [49] then Some(true) else if line == [48] then Some(false) else None,
               false);
  }

  /** The bytes `send` puts on the wire for each message, in order. */
  function Wire<M>(c: Codec<M>, msgs: seq<M>): seq<Byte> {
    if msgs == [] then [] else c.encode(msgs[0]) + [NEWLINE] + Wire(c, msgs[1..])
  }

  // ------------------------------------------------------------------- the socket

  /** What recv has in store: bytes, or a silence long enough to run into a timeout. Once everything
      is used up the peer has closed. */
  datatype Event = Chunk(bytes: seq<Byte>) | Quiet

  datatype Received = Bytes(chunk: seq<Byte>) | TimedOut | Hangup

  /** All the bytes still to be received. */
  function Unreceived(script: seq<Event>): seq<Byte> {
    if script == [] then []
    else (if script[0].Chunk? then script[0].bytes else []) + Unreceived(script[1..])
  }

  function Silences(script: seq<Event>): nat {
    if script == [] then 0 else (if script[0].Quiet? then 1 else 0) + Silences(script[1..])
  }

  // ------------------------------------------------------------------- lines

  /** The first line of a stream that holds a newline. */
  function FirstLine(s: seq<Byte>): (line: seq<Byte>)
    requires NEWLINE in s
    ensures NEWLINE !in line && |line| < |s| && s[|line|] == NEWLINE && s[..|line|] == line
  {
    if s[0] == NEWLINE then [] else [s[0]] + FirstLine(s[1..])
  }

  function AfterLine(s: seq<Byte>): (rest: seq<Byte>)
    requires NEWLINE in s
    ensures s == FirstLine(s) + [NEWLINE] + rest
  {
    s[|FirstLine(s)| + 1..]
  }

  /** The complete lines of a stream, however it is cut into chunks. */
  function Lines(s: seq<Byte>): seq<seq<Byte>>
    decreases |s|
  {
    if NEWLINE in s then [FirstLine(s)] + Lines(AfterLine(s)) else []
  }

  lemma {:induction false} FirstLineOf(line: seq<Byte>, rest: seq<Byte>)
    requires NEWLINE !in line
    ensures var s := line + [NEWLINE] + rest;
            && NEWLINE in s && FirstLine(s) == line && AfterLine(s) == rest
  {
    if line != [] {
      FirstLineOf(line[1..], rest);
      assert (line + [NEWLINE] + rest)[1..] == line[1..] + [NEWLINE] + rest;
    } else {
      assert ([NEWLINE] + rest)[0] == NEWLINE;
    }
  }

  /** Appending to a stream never changes its first line. */
  lemma FirstLineIsStable(s: seq<Byte>, more: seq<Byte>)
    requires NEWLINE in s
    ensures NEWLINE in s + more
    ensures FirstLine(s + more) == FirstLine(s) && AfterLine(s + more) == AfterLine(s) + more
  {
    hide FirstLine, AfterLine;
    FirstLineOf(FirstLine(s), AfterLine(s) + more);
    assert s + more == FirstLine(s) + [NEWLINE] + (AfterLine(s) + more);
  }

  function Encodings<M>(c: Codec<M>, msgs: seq<M>): seq<seq<Byte>> {
    if msgs == [] then [] else [c.encode(msgs[0])] + Encodings(c, msgs[1..])
  }

  lemma {:induction false} LinesOfWire<M(!new)>(c: Codec<M>, msgs: seq<M>, tail: seq<Byte>)
    requires Faithful(c) && NEWLINE !in tail
    ensures Lines(Wire(c, msgs) + tail) == Encodings(c, msgs)
  {
    if msgs == [] {
      assert Wire(c, msgs) + tail == tail;
    } else {
      var rest := Wire(c, msgs[1..]) + tail;
      assert Wire(c, msgs) + tail == c.encode(msgs[0]) + [NEWLINE] + rest;
      FirstLineOf(c.encode(msgs[0]), rest);
      LinesOfWire(c, msgs[1..], tail);
    }
  }

  // -------------------------------------------------------------------- reading

  datatype Outcome<+M> = Message(msg: M) | NotJson | WentQuiet | Closed

  /** A reader's buffer and what its socket still has in store. */
  datatype Input = Input(buf: seq<Byte>, script: seq<Event>) {
    function Stream(): seq<Byte> { buf + Unreceived(script) }
  }

  /** What the caller of read gets to see of it: a message, None, or a PeerError. */
  datatype Returned<+M> = Value(msg: M) | NoneReturned | Raised

  function Visible<M(==)>(c: Codec<M>, o: Outcome<M>): Returned<M> {
    match o
    case Message(m) => if m == c.null_ then NoneReturned else Value(m)
    case Closed => NoneReturned
    case _ => Raised
  }

  function Decoded<M>(c: Codec<M>, line: seq<Byte>): Outcome<M> {
    match c.decode(line)
    case Some(m) => Message(m)
    case None => NotJson
  }

  /** One call of recv(65536): a chunk, a timeout when one is set, or the empty answer of a closed
      peer. Without a timeout a silence is simply waited out. */
  function RecvStep(script: seq<Event>, hasTimeout: bool): (res: (Received, seq<Event>))
    ensures |res.1| <= |script| && (res.0 != Hangup ==> |res.1| < |script|)
    ensures res.0 == Hangup ==> res.1 == []
    ensures res.0 == TimedOut ==> hasTimeout
    ensures Unreceived(script) == (if res.0.Bytes? then res.0.chunk else []) + Unreceived(res.1)
    ensures Silences(res.1) <= Silences(script) - if res.0 == TimedOut then 1 else 0
  {
    if script == [] then (Hangup, [])
    else match script[0]
      case Chunk(bytes) => (Bytes(bytes), script[1..])
      case Quiet => if hasTimeout then (TimedOut, script[1..]) else RecvStep(script[1..], hasTimeout)
  }

  /** One call of read: its outcome and the input it leaves. */
  function ReadStep<M>(c: Codec<M>, input: Input, hasTimeout: bool): (Outcome<M>, Input)
    decreases |input.script|
  {
    if NEWLINE in input.buf then (Decoded(c, FirstLine(input.buf)), Input(AfterLine(input.buf), input.script))
    else
      var (received, rest) := RecvStep(input.script, hasTimeout);
      match received
      case Hangup => (Closed, Input(input.buf, rest))
      case TimedOut => (WentQuiet, Input(input.buf, rest))
      case Bytes(chunk) => ReadStep(c, Input(input.buf + chunk, rest), hasTimeout)
  }

  /** The `n`-th thing that recv has in store is a silence, and no newline comes before it. */
  ghost predicate QuietBeforeNewline(input: Input, n: nat) {
    && NEWLINE !in input.buf && n < |input.script| && input.script[n] == Quiet
    && forall i :: 0 <= i < n ==> input.script[i].Chunk? && NEWLINE !in input.script[i].bytes
  }

  /** A read raises for silence exactly when it has a timeout and a silence comes before the next newline. */
  lemma {:induction false} QuietIsReported<M>(c: Codec<M>, input: Input, hasTimeout: bool)
    ensures ReadStep(c, input, hasTimeout).0 == WentQuiet <==>
              hasTimeout && exists n: nat :: QuietBeforeNewline(input, n)
    decreases |input.script|
  {
    if NEWLINE !in input.buf && input.script != [] && hasTimeout {
      match input.script[0]
      case Quiet =>
        assert QuietBeforeNewline(input, 0);
      case Chunk(bytes) =>
        var next := Input(input.buf + bytes, input.script[1..]);
        QuietIsReported(c, next, hasTimeout);
        QuietOneOn(input, next);
    } else {
      NoTimeoutNoQuiet(c, input, hasTimeout);
    }
  }

  lemma QuietOneOn(input: Input, next: Input)
    requires NEWLINE !in input.buf && input.script != [] && input.script[0].Chunk?
    requires next == Input(input.buf + input.script[0].bytes, input.script[1..])
    ensures (exists n: nat :: QuietBeforeNewline(input, n)) <==> exists n: nat :: QuietBeforeNewline(next, n)
  {
    if n: nat :| QuietBeforeNewline(input, n) {
      assert QuietBeforeNewline(next, n - 1);
    }
    if n: nat :| QuietBeforeNewline(next, n) {
      assert QuietBeforeNewline(input, n + 1);
    }
  }

  lemma {:induction false} NoTimeoutNoQuiet<M>(c: Codec<M>, input: Input, hasTimeout: bool)
    requires !hasTimeout || input.script == [] || NEWLINE in input.buf
    ensures ReadStep(c, input, hasTimeout).0 != WentQuiet
  {
    ReadStepReadsStream(c, input, hasTimeout);
  }

  /** The caller sees a PeerError for a silence and for a line that is not JSON, and for nothing else. */
  lemma RaisedExactly<M>(c: Codec<M>, o: Outcome<M>)
    ensures Visible(c, o) == Raised <==> o == WentQuiet || o == NotJson
  {
  }

  predicate IsLine<M>(o: Outcome<M>) {
    o.Message? || o.NotJson?
  }

  /** What one read means for the stream as a whole: it takes exactly the first complete line, or
      takes nothing. */
  ghost predicate ReadsStream<M>(c: Codec<M>, input: Input, hasTimeout: bool, o: Outcome<M>, next: Input) {
    && Silences(next.script) <= Silences(input.script)
    && match o
       case Closed => NEWLINE !in input.Stream() && next.Stream() == input.Stream() && next.script == []
       case WentQuiet => hasTimeout && next.Stream() == input.Stream() && Silences(next.script) < Silences(input.script)
       case _ =>
          && NEWLINE in input.Stream() && o == Decoded(c, FirstLine(input.Stream()))
          && next.Stream() == AfterLine(input.Stream())
  }

  lemma {:induction false} ReadStepReadsStream<M>(c: Codec<M>, input: Input, hasTimeout: bool)
    ensures var (o, next) := ReadStep(c, input, hasTimeout); ReadsStream(c, input, hasTimeout, o, next)
    decreases |input.script|
  {
    var (received, rest) := RecvStep(input.script, hasTimeout);
    if NEWLINE in input.buf {
      FirstLineIsStable(input.buf, Unreceived(input.script));
    } else if received.Bytes? {
      var grown := Input(input.buf + received.chunk, rest);
      assert grown.Stream() == input.Stream();
      ReadStepReadsStream(c, grown, hasTimeout);
    }
  }

  class Socket {
    var script: seq<Event>

    constructor (script: seq<Event>)
      ensures this.script == script
    {
      this.script := script;
    }

    method Recv(hasTimeout: bool) returns (r: Received)
      modifies this
      ensures (r, script) == RecvStep(old(script), hasTimeout)
    {
      while script != [] && script[0] == Quiet && !hasTimeout
        invariant RecvStep(script, hasTimeout) == RecvStep(old(script), hasTimeout)
        decreases |script|
      {
        script := script[1..];
      }
      if script == [] {
        return Hangup;
      }
      r := match script[0] case Chunk(bytes) => Bytes(bytes) case Quiet => TimedOut;
      script := script[1..];
    }
  }

  class Reader<!M(==)> {
    const codec: Codec<M>
    const sock: Socket
    var buf: seq<Byte>

    constructor (codec: Codec<M>, sock: Socket)
      ensures this.codec == codec && this.sock == sock && buf == []
    {
      this.codec, this.sock, buf := codec, sock, [];
    }

    function Pending(): Input
      reads this, sock
    {
      Input(buf, sock.script)
    }

    /** The next message, None when the peer has closed or says null, and a PeerError for a timeout or a line
        that is not JSON. `o` is what really happened. */
    method Read(hasTimeout: bool) returns (r: Returned<M>, ghost o: Outcome<M>)
      modifies this, sock
      ensures r == Visible(codec, o)
      ensures (o, Pending()) == ReadStep(codec, old(Pending()), hasTimeout)
      ensures ReadsStream(codec, old(Pending()), hasTimeout, o, Pending())
    {
      ReadStepReadsStream(codec, Pending(), hasTimeout);
      while NEWLINE !in buf
        invariant ReadStep(codec, Pending(), hasTimeout) == ReadStep(codec, old(Pending()), hasTimeout)
        decreases |sock.script|
      {
        var received := sock.Recv(hasTimeout);
        match received {
          case TimedOut => return Raised, WentQuiet;
          case Hangup => return NoneReturned, Closed;
          case Bytes(chunk) => buf := buf + chunk;
        }
      }
      var line := FirstLine(buf);
      buf := AfterLine(buf);
      o := Decoded(codec, line);
      match codec.decode(line) {
        case None => r := Raised;
        case Some(msg) => r := if msg == codec.null_ then NoneReturned else Value(msg);
      }
    }
  }

  // ------------------------------------------------------------ successive reads

  /** The outcomes of successive reads, one per element of `timeouts`, and the input they leave. */
  function Reads<M>(c: Codec<M>, input: Input, timeouts: seq<bool>): (res: (seq<Outcome<M>>, Input))
    ensures |res.0| == |timeouts|
    decreases |timeouts|
  {
    if timeouts == [] then ([], input)
    else
      var (o, next) := ReadStep(c, input, timeouts[0]);
      var (os, last) := Reads(c, next, timeouts[1..]);
      ([o] + os, last)
  }

  /** The outcomes that consumed a line. */
  function LineOutcomes<M>(os: seq<Outcome<M>>): seq<Outcome<M>> {
    if os == [] then [] else (if IsLine(os[0]) then [os[0]] else []) + LineOutcomes(os[1..])
  }

  function DecodedAll<M>(c: Codec<M>, lines: seq<seq<Byte>>): (os: seq<Outcome<M>>)
    ensures |os| == |lines|
  {
    if lines == [] then [] else [Decoded(c, lines[0])] + DecodedAll(c, lines[1..])
  }

  /** The bytes of `lines`, each with its newline. */
  function Joined(lines: seq<seq<Byte>>): seq<Byte> {
    if lines == [] then [] else lines[0] + [NEWLINE] + Joined(lines[1..])
  }

  lemma {:induction false} SplitAndJoin<M>(c: Codec<M>, lines: seq<seq<Byte>>, n: nat)
    requires n <= |lines|
    ensures DecodedAll(c, lines[..n]) == DecodedAll(c, lines)[..n]
    ensures Joined(lines) == Joined(lines[..n]) + Joined(lines[n..])
  {
    if n > 0 {
      SplitAndJoin(c, lines[1..], n - 1);
      assert lines[..n][1..] == lines[1..][..n - 1];
    }
  }

  /** `os` are the first `n` complete lines of `stream`, and `rest` is everything after them. */
  ghost predicate TakesLines<M>(c: Codec<M>, stream: seq<Byte>, os: seq<Outcome<M>>, rest: seq<Byte>, n: nat) {
    && n <= |Lines(stream)|
    && LineOutcomes(os) == DecodedAll(c, Lines(stream)[..n])
    && Lines(rest) == Lines(stream)[n..]
    && Joined(Lines(stream)[..n]) + rest == stream
  }

  lemma TakeOneMoreLine<M>(c: Codec<M>, stream: seq<Byte>, os: seq<Outcome<M>>, rest: seq<Byte>, n: nat)
    requires NEWLINE in stream && TakesLines(c, AfterLine(stream), os, rest, n)
    ensures TakesLines(c, stream, [Decoded(c, FirstLine(stream))] + os, rest, n + 1)
  {
    var first, more := FirstLine(stream), Lines(AfterLine(stream));
    var o := Decoded(c, first);
    assert Lines(stream) == [first] + more;
    SliceOfCons(first, more, n);
    ConsEquations(c, first, more[..n], o, os);
    Regroup(first + [NEWLINE], Joined(more[..n]), rest);
  }

  lemma SliceOfCons<T>(x: T, xs: seq<T>, n: nat)
    requires n <= |xs|
    ensures ([x] + xs)[..n + 1] == [x] + xs[..n]
    ensures ([x] + xs)[n + 1..] == xs[n..]
  {
  }

  lemma Regroup<T>(a: seq<T>, b: seq<T>, c: seq<T>)
    ensures a + (b + c) == a + b + c
  {
  }

  lemma ConsEquations<M>(c: Codec<M>, line: seq<Byte>, lines: seq<seq<Byte>>, o: Outcome<M>, os: seq<Outcome<M>>)
    ensures Joined([line] + lines) == line + [NEWLINE] + Joined(lines)
    ensures DecodedAll(c, [line] + lines) == [Decoded(c, line)] + DecodedAll(c, lines)
    ensures LineOutcomes([o] + os) == (if IsLine(o) then [o] else []) + LineOutcomes(os)
  {
    assert ([line] + lines)[1..] == lines;
    assert ([o] + os)[1..] == os;
  }

  /** However the stream is cut into chunks and wherever the silences fall: successive reads take the
      stream's complete lines in order, each once, and bytes delivered, buffered and unreceived
      always add up to the stream. */
  lemma {:induction false} ReadsTakeLinesInOrder<M>(c: Codec<M>, input: Input, timeouts: seq<bool>)
    returns (n: nat)
    ensures var (os, last) := Reads(c, input, timeouts); TakesLines(c, input.Stream(), os, last.Stream(), n)
    decreases |timeouts|
  {
    n := 0;
    if timeouts != [] {
      var (o, next) := ReadStep(c, input, timeouts[0]);
      ReadStepReadsStream(c, input, timeouts[0]);
      var (os, last) := Reads(c, next, timeouts[1..]);
      n := ReadsTakeLinesInOrder(c, next, timeouts[1..]);
      if IsLine(o) {
        TakeOneMoreLine(c, input.Stream(), os, last.Stream(), n);
        n := n + 1;
      } else {
        assert ([o] + os)[1..] == os;
      }
    }
  }

  /** Enough reads deliver every complete line: only that many outcomes can be silences. */
  lemma {:induction false} EnoughReadsDeliverEverything<M>(c: Codec<M>, input: Input, timeouts: seq<bool>)
    requires |timeouts| >= |Lines(input.Stream())| + Silences(input.script)
    ensures var (os, last) := Reads(c, input, timeouts);
            && LineOutcomes(os) == DecodedAll(c, Lines(input.Stream()))
            && NEWLINE !in last.Stream()
    decreases |timeouts|
  {
    if timeouts == [] {
      assert Lines(input.Stream()) == [];
    } else {
      var (o, next) := ReadStep(c, input, timeouts[0]);
      ReadStepReadsStream(c, input, timeouts[0]);
      EnoughReadsDeliverEverything(c, next, timeouts[1..]);
      var (os, _) := Reads(c, next, timeouts[1..]);
      assert ([o] + os)[1..] == os;
    }
  }

  /** Closed is reported only once the peer has closed and no complete line is left, and then for good. */
  lemma {:induction false} ClosedIsFinal<M>(c: Codec<M>, input: Input, timeouts: seq<bool>, i: nat)
    requires i < |timeouts| && Reads(c, input, timeouts).0[i] == Closed
    ensures var (os, last) := Reads(c, input, timeouts);
            && LineOutcomes(os) == DecodedAll(c, Lines(input.Stream()))
            && last.script == [] && NEWLINE !in last.buf
            && forall j :: i <= j < |os| ==> os[j] == Closed
    decreases |timeouts|
  {
    var (o, next) := ReadStep(c, input, timeouts[0]);
    ReadStepReadsStream(c, input, timeouts[0]);
    var (os, last) := Reads(c, next, timeouts[1..]);
    assert ([o] + os)[1..] == os;
    if i > 0 {
      ClosedIsFinal(c, next, timeouts[1..], i - 1);
    } else if |timeouts| > 1 {
      ReadStepReadsStream(c, next, timeouts[1]);
      assert os[0] == ReadStep(c, next, timeouts[1]).0;
      ClosedIsFinal(c, next, timeouts[1..], 0);
    }
  }

  // ------------------------------------------------------------- what None means

  /** A read returns None when no complete line is left or the next one says null, unless it times out. */
  lemma NoneOfOneRead<M>(c: Codec<M>, input: Input, hasTimeout: bool)
    ensures var (o, next) := ReadStep(c, input, hasTimeout); var stream := input.Stream();
            Visible(c, o) == NoneReturned <==>
              o != WentQuiet && (NEWLINE !in stream || c.decode(FirstLine(stream)) == Some(c.null_))
  {
    ReadStepReadsStream(c, input, hasTimeout);
  }

  lemma {:induction false} LineOutcomesAre<M>(os: seq<Outcome<M>>, o: Outcome<M>)
    ensures o in LineOutcomes(os) <==> o in os && IsLine(o)
  {
    if os != [] {
      LineOutcomesAre(os[1..], o);
      assert os == [os[0]] + os[1..];
    }
  }

  lemma {:induction false} DecodedOf<M>(c: Codec<M>, lines: seq<seq<Byte>>, j: nat)
    requires j < |lines|
    ensures DecodedAll(c, lines)[j] == Decoded(c, lines[j])
  {
    if j > 0 {
      DecodedOf(c, lines[1..], j - 1);
    }
  }

  /** Whatever the timeouts, a None can only be a close. */
  ghost predicate NoneMeansClosed<M>(c: Codec<M>, input: Input) {
    forall timeouts: seq<bool>, i: nat ::
      i < |timeouts| && Visible(c, Reads(c, input, timeouts).0[i]) == NoneReturned
      ==> Reads(c, input, timeouts).0[i] == Closed
  }

  lemma NoneIsAlwaysHeard<M>(c: Codec<M>, input: Input, line: seq<Byte>)
    requires line in Lines(input.Stream()) && c.decode(line) == Some(c.null_)
    ensures !NoneMeansClosed(c, input)
  {
    hide Lines, Silences, Reads, ReadStep, LineOutcomes, DecodedAll;
    var lines := Lines(input.Stream());
    var timeouts := seq(|lines| + Silences(input.script), _ => false);
    EnoughReadsDeliverEverything(c, input, timeouts);
    var os := Reads(c, input, timeouts).0;
    var j :| 0 <= j < |lines| && lines[j] == line;
    DecodedOf(c, lines, j);
    LineOutcomesAre(os, Message(c.null_));
    var i: nat :| i < |os| && os[i] == Message(c.null_);
    assert Visible(c, Reads(c, input, timeouts).0[i]) == NoneReturned;
  }

  lemma NoneIsOfALine<M>(c: Codec<M>, input: Input, timeouts: seq<bool>, i: nat) returns (line: seq<Byte>)
    requires i < |timeouts| && Visible(c, Reads(c, input, timeouts).0[i]) == NoneReturned
    requires Reads(c, input, timeouts).0[i] != Closed
    ensures line in Lines(input.Stream()) && c.decode(line) == Some(c.null_)
  {
    hide Lines, Reads, ReadStep, LineOutcomes, DecodedAll;
    var os, lines := Reads(c, input, timeouts).0, Lines(input.Stream());
    var n := ReadsTakeLinesInOrder(c, input, timeouts);
    SplitAndJoin(c, lines, n);
    LineOutcomesAre(os, os[i]);
    var j: nat :| j < |LineOutcomes(os)| && LineOutcomes(os)[j] == os[i];
    assert DecodedAll(c, lines)[..n][j] == os[i];
    DecodedOf(c, lines, j);
    line := lines[j];
  }

  /** None is the sign of a close, as read promises, exactly when no complete line says null. */
  lemma NoneMeansClosedExactly<M>(c: Codec<M>, input: Input)
    ensures NoneMeansClosed(c, input) <==>
              forall line :: line in Lines(input.Stream()) ==> c.decode(line) != Some(c.null_)
  {
    hide Lines, Reads, ReadStep, Visible;
    if line :| line in Lines(input.Stream()) && c.decode(line) == Some(c.null_) {
      NoneIsAlwaysHeard(c, input, line);
    } else if !NoneMeansClosed(c, input) {
      var timeouts: seq<bool>, i: nat :| i < |timeouts| && Visible(c, Reads(c, input, timeouts).0[i]) == NoneReturned
                                         && Reads(c, input, timeouts).0[i] != Closed;
      var line := NoneIsOfALine(c, input, timeouts, i);
    }
  }

  /** The line `null` and the line `{}`. */
  const NULL_LINE: seq<Byte> := [110, 117, 108, 108]
  const EMPTY_OBJECT: seq<Byte> := [123, 125]

  lemma ReadOfOneLine<M>(c: Codec<M>, line: seq<Byte>, rest: seq<Byte>)
    requires NEWLINE !in line
    ensures var bytes := line + [NEWLINE] + rest;
            && ReadStep(c, Input(bytes, []), false) == (Decoded(c, line), Input(rest, []))
            && ReadStep(c, Input([], [Chunk(bytes)]), false) == ReadStep(c, Input(bytes, []), false)
  {
    hide FirstLine, AfterLine;
    FirstLineOf(line, rest);
    var bytes := line + [NEWLINE] + rest;
    assert [] + bytes == bytes && [Chunk(bytes)][1..] == [];
    assert RecvStep([Chunk(bytes)], false) == (Bytes(bytes), []);
  }

  /** A peer that says null and then an object: the first read says it has closed, the second reads on. */
  lemma NullLooksLikeAClose<M>(c: Codec<M>)
    requires c.decode(NULL_LINE) == Some(c.null_) && c.decode(EMPTY_OBJECT).Some?
    requires c.decode(EMPTY_OBJECT).value != c.null_
    ensures var input := Input([], [Chunk([110, 117, 108, 108, 10, 123, 125, 10])]);
            var (o, next) := ReadStep(c, input, false);
            && Visible(c, o) == NoneReturned
            && Visible(c, ReadStep(c, next, false).0) == Value(c.decode(EMPTY_OBJECT).value)
  {
    hide ReadStep;
    ReadOfOneLine(c, NULL_LINE, EMPTY_OBJECT + [NEWLINE]);
    assert NULL_LINE + [NEWLINE] + (EMPTY_OBJECT + [NEWLINE]) == [110, 117, 108, 108, 10, 123, 125, 10];
    ReadOfOneLine(c, EMPTY_OBJECT, []);
    assert EMPTY_OBJECT + [NEWLINE] + [] == EMPTY_OBJECT + [NEWLINE];
  }

  lemma {:induction false} DecodingTheEncoding<M(!new)>(c: Codec<M>, msgs: seq<M>)
    requires Faithful(c)
    ensures |Encodings(c, msgs)| == |msgs|
    ensures forall i :: 0 <= i < |msgs| ==> DecodedAll(c, Encodings(c, msgs))[i] == Message(msgs[i])
  {
    if msgs != [] {
      DecodingTheEncoding(c, msgs[1..]);
    }
  }

  /** The channel's promise: what was sent is what is read, in order and without loss or
      duplication, for every split of the bytes into chunks and any silences; a line the peer did
      not finish before closing is never delivered. */
  lemma MessagesArriveInOrder<M(!new)>(c: Codec<M>, msgs: seq<M>, tail: seq<Byte>, script: seq<Event>,
                        timeouts: seq<bool>)
    returns (n: nat)
    requires Faithful(c) && NEWLINE !in tail && Unreceived(script) == Wire(c, msgs) + tail
    ensures var (os, last) := Reads(c, Input([], script), timeouts);
            && n <= |msgs| && |LineOutcomes(os)| == n
            && (forall i :: 0 <= i < n ==> LineOutcomes(os)[i] == Message(msgs[i]))
            && last.Stream() == Wire(c, msgs[n..]) + tail
            && (Closed in os || |timeouts| >= |msgs| + Silences(script) ==> n == |msgs|)
  {
    hide Wire, Reads, Joined, Lines, LineOutcomes, Encodings, Silences, Faithful;
    var input := Input([], script);
    var stream := Wire(c, msgs) + tail;
    assert input.Stream() == stream;
    LinesOfWire(c, msgs, tail);
    DecodingTheEncoding(c, msgs);
    n := ReadsTakeLinesInOrder(c, input, timeouts);
    var (os, last) := Reads(c, input, timeouts);
    SplitAndJoin(c, Encodings(c, msgs), n);
    EverythingIsDelivered(c, input, timeouts);
    RestOfWire(c, msgs, n, tail, last.Stream());
  }

  lemma {:induction false} EncodingsAreOfMessages<M>(c: Codec<M>, msgs: seq<M>)
    ensures |Encodings(c, msgs)| == |msgs| && forall i :: 0 <= i < |msgs| ==> Encodings(c, msgs)[i] == c.encode(msgs[i])
  {
    if msgs != [] {
      EncodingsAreOfMessages(c, msgs[1..]);
    }
  }

  /** Between peers that `send`, None means a close exactly when neither sends null. */
  lemma NoneMeansClosedBetweenPeers<M(!new)>(c: Codec<M>, msgs: seq<M>, tail: seq<Byte>, script: seq<Event>)
    requires Faithful(c) && NEWLINE !in tail && Unreceived(script) == Wire(c, msgs) + tail
    ensures NoneMeansClosed(c, Input([], script)) <==> c.null_ !in msgs
  {
    hide NoneMeansClosed, Lines, Wire;
    var input := Input([], script);
    assert input.Stream() == Wire(c, msgs) + tail;
    LinesOfWire(c, msgs, tail);
    EncodingsAreOfMessages(c, msgs);
    NoneMeansClosedExactly(c, input);
    assert forall i :: 0 <= i < |msgs| ==> c.encode(msgs[i]) in Encodings(c, msgs);
  }

  lemma EverythingIsDelivered<M>(c: Codec<M>, input: Input, timeouts: seq<bool>)
    ensures var (os, last) := Reads(c, input, timeouts); var lines := Lines(input.Stream());
            Closed in os || |timeouts| >= |lines| + Silences(input.script) ==> LineOutcomes(os) == DecodedAll(c, lines)
  {
    var (os, last) := Reads(c, input, timeouts);
    if Closed in os {
      var i :| 0 <= i < |os| && os[i] == Closed;
      ClosedIsFinal(c, input, timeouts, i);
    } else if |timeouts| >= |Lines(input.Stream())| + Silences(input.script) {
      EnoughReadsDeliverEverything(c, input, timeouts);
    }
  }

  lemma RestOfWire<M>(c: Codec<M>, msgs: seq<M>, n: nat, tail: seq<Byte>, rest: seq<Byte>)
    requires n <= |msgs| == |Encodings(c, msgs)|
    requires Joined(Encodings(c, msgs)[..n]) + rest == Wire(c, msgs) + tail
    ensures rest == Wire(c, msgs[n..]) + tail
  {
    WireOfSuffix(c, msgs, n);
    var taken := Joined(Encodings(c, msgs)[..n]);
    assert taken + rest == taken + (Wire(c, msgs[n..]) + tail);
    assert (taken + rest)[|taken|..] == rest;
  }

  lemma {:induction false} WireOfSuffix<M>(c: Codec<M>, msgs: seq<M>, n: nat)
    requires n <= |msgs| == |Encodings(c, msgs)|
    ensures Wire(c, msgs) == Joined(Encodings(c, msgs)[..n]) + Wire(c, msgs[n..])
  {
    if n > 0 {
      assert |Encodings(c, msgs[1..])| == |msgs| - 1;
      WireOfSuffix(c, msgs[1..], n - 1);
      assert Encodings(c, msgs)[..n][1..] == Encodings(c, msgs[1..])[..n - 1];
    } else {
      assert msgs[0..] == msgs;
    }
  }
}
