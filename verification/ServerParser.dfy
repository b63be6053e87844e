/**
 The server's resumable RESP2 parser (hkv-server/src/protocol.rs) and the loop that feeds it
 from the socket (hkv-server/src/server.rs).

 `ParseOnce` is one call of the parser on values; `Drain` is "parse until more data is needed".
 The class at the end is the code itself, proved to compute them.
 */
module ServerParser {
  import opened Base
  import opened Decimal

  type Command = seq<Bytes>

  // What a suspended parser remembers. `count` is the declared number of arguments.
  datatype Suspended =
    | AtStart
    | AtLength(count: nat, args: Command)
    | AtData(count: nat, args: Command, len: nat)

  // In both bulk states at least one argument is still due.
  predicate Sound(s: Suspended) {
    s.AtStart? || |s.args| < s.count
  }

  // Index of the first LF at or after `idx` that follows a CR.
  function LineEnd(buf: Bytes, idx: nat): (r: Option<nat>)
    requires idx >= 1
    ensures r.Some? ==> idx <= r.value < |buf| && buf[r.value] == LF && buf[r.value - 1] == CR
    ensures forall k :: idx <= k < (if r.Some? then r.value else |buf|) ==> !(buf[k] == LF && buf[k - 1] == CR)
    decreases |buf| - idx
  {
    if idx >= |buf| then None
    else if buf[idx] == LF && buf[idx - 1] == CR then Some(idx)
    else LineEnd(buf, idx + 1)
  }

  datatype Line = Line(text: Bytes, rest: Bytes)

  function SplitLine(buf: Bytes): (r: Option<Line>)
    ensures r.Some? ==> buf == r.value.text + CRLF + r.value.rest
  {
    match LineEnd(buf, 1)
    case None => None
    case Some(i) =>
      assert buf == buf[..i - 1] + [buf[i - 1], buf[i]] + buf[i + 1..];
      Some(Line(buf[..i - 1], buf[i + 1..]))
  }

  // A length line: a type byte and then a number.
  function LengthIn(text: Bytes, kind: byte): Option<nat> {
    if text == [] || text[0] != kind then None else Unsigned(text[1..], USIZE_MAX)
  }

  datatype Step =
    | Stall
    | Fail
    | Crash
    | Emit(cmd: Command, rest: Bytes)
    | Go(s: Suspended, rest: Bytes)

  // One turn of the parser loop. `bulk_len + 2` wraps as in a release build; when it does, no
  // buffer (at most ISIZE_MAX bytes) holds `bulk_len` bytes and taking them out of it panics.
  function Advance(s: Suspended, buf: Bytes): (r: Step)
    requires Sound(s)
    ensures r.Go? ==> Sound(r.s) && !r.s.AtStart?
    ensures r.Go? || r.Emit? ==> |r.rest| + 2 <= |buf|
  {
    match s
    case AtStart =>
      (match SplitLine(buf)
       case None => Stall
       case Some(line) =>
         match LengthIn(line.text, STAR)
         case None => Fail
         case Some(n) => if n == 0 then Emit([], line.rest) else Go(AtLength(n, []), line.rest))
    case AtLength(count, args) =>
      (match SplitLine(buf)
       case None => Stall
       case Some(line) =>
         match LengthIn(line.text, DOLLAR)
         case None => Fail
         case Some(n) => Go(AtData(count, args, n), line.rest))
    case AtData(count, args, len) =>
      if |buf| < (len + 2) % WORD then Stall
      else if len + 2 >= WORD then Crash
      else if buf[len] != CR || buf[len + 1] != LF then Fail
      else
        var args' := args + [buf[..len]];
        if |args'| == count then Emit(args', buf[len + 2..]) else Go(AtLength(count, args'), buf[len + 2..])
  }

  datatype Outcome =
    | NeedMore(s: Suspended, buf: Bytes)
    | Ready(cmd: Command, rest: Bytes)
    | ProtocolError
    | Panic

  function ParseOnce(s: Suspended, buf: Bytes): (r: Outcome)
    requires Sound(s)
    ensures r.NeedMore? ==> Sound(r.s) && |r.buf| <= |buf|
    ensures r.Ready? ==> |r.rest| < |buf|
    decreases |buf|
  {
    match Advance(s, buf)
    case Stall => NeedMore(s, buf)
    case Fail => ProtocolError
    case Crash => Panic
    case Emit(cmd, rest) => Ready(cmd, rest)
    case Go(s', rest) => ParseOnce(s', rest)
  }

  datatype End = Waiting(s: Suspended, buf: Bytes) | Failed | Panicked

  datatype Session = Session(cmds: seq<Command>, end: End)

  predicate Resumable(e: End) {
    e.Waiting? ==> Sound(e.s)
  }

  // Parsing until the buffer holds no complete command.
  function Drain(s: Suspended, buf: Bytes): (r: Session)
    requires Sound(s)
    ensures Resumable(r.end)
    decreases |buf|
  {
    match ParseOnce(s, buf)
    case NeedMore(s', buf') => Session([], Waiting(s', buf'))
    case ProtocolError => Session([], Failed)
    case Panic => Session([], Panicked)
    case Ready(cmd, rest) => Prepend([cmd], Drain(AtStart, rest))
  }

  function Prepend(cmds: seq<Command>, r: Session): Session {
    Session(cmds + r.cmds, r.end)
  }

  // More bytes arrive after `r`.
  function Resume(r: Session, more: Bytes): Session
    requires Resumable(r.end)
  {
    if r.end.Waiting? then Prepend(r.cmds, Drain(r.end.s, r.end.buf + more)) else r
  }

  // ---------------------------------------------------------------------------------------
  // Chunking: nothing is lost or gained where the stream is cut.

  lemma {:induction false} LineEndExtends(a: Bytes, b: Bytes, idx: nat)
    requires idx >= 1 && LineEnd(a, idx).Some?
    ensures LineEnd(a + b, idx) == LineEnd(a, idx)
    decreases |a| - idx
  {
    if !(a[idx] == LF && a[idx - 1] == CR) {
      LineEndExtends(a, b, idx + 1);
    }
  }

  lemma SplitLineExtends(a: Bytes, b: Bytes)
    requires SplitLine(a).Some?
    ensures SplitLine(a + b) == Some(Line(SplitLine(a).value.text, SplitLine(a).value.rest + b))
  {
    LineEndExtends(a, b, 1);
    var i := LineEnd(a, 1).value;
    assert (a + b)[..i - 1] == a[..i - 1];
    assert (a + b)[i + 1..] == a[i + 1..] + b;
  }

  function Extended(r: Step, b: Bytes): Step {
    match r
    case Emit(cmd, rest) => Emit(cmd, rest + b)
    case Go(s, rest) => Go(s, rest + b)
    case _ => r
  }

  // A turn that did not stall takes the same decision when more bytes follow.
  lemma AdvanceExtends(s: Suspended, a: Bytes, b: Bytes)
    requires Sound(s) && !Advance(s, a).Stall?
    ensures Advance(s, a + b) == Extended(Advance(s, a), b)
  {
    match s
    case AtStart => SplitLineExtends(a, b);
    case AtLength(_, _) => SplitLineExtends(a, b);
    case AtData(count, args, len) =>
      if len + 2 < WORD {
        assert (a + b)[..len] == a[..len];
        assert (a + b)[len + 2..] == a[len + 2..] + b;
      }
  }

  lemma {:induction false} ParseExtends(s: Suspended, a: Bytes, b: Bytes)
    requires Sound(s)
    ensures match ParseOnce(s, a)
            case NeedMore(s', a') => ParseOnce(s, a + b) == ParseOnce(s', a' + b)
            case Ready(cmd, rest) => ParseOnce(s, a + b) == Ready(cmd, rest + b)
            case other => ParseOnce(s, a + b) == other
    decreases |a|
  {
    var r := Advance(s, a);
    if !r.Stall? {
      AdvanceExtends(s, a, b);
      if r.Go? {
        ParseExtends(r.s, r.rest, b);
      }
    }
  }

  // Draining a stream in one piece is draining a prefix and resuming with what follows.
  lemma {:induction false} DrainResumes(s: Suspended, a: Bytes, b: Bytes)
    requires Sound(s)
    ensures Drain(s, a + b) == Resume(Drain(s, a), b)
    decreases |a|
  {
    ParseExtends(s, a, b);
    var r := ParseOnce(s, a);
    if r.Ready? {
      DrainResumes(AtStart, r.rest, b);
      var d := Drain(AtStart, r.rest);
      if d.end.Waiting? {
        var later := Drain(d.end.s, d.end.buf + b);
        Assoc([r.cmd], d.cmds, later.cmds);
      }
    } else if r.NeedMore? {
      assert [] + Drain(r.s, r.buf + b).cmds == Drain(r.s, r.buf + b).cmds;
    }
  }

  // The connection loop on values: append a read to the buffer, drain, stop on the first error.
  function Feed(s: Suspended, buf: Bytes, chunks: seq<Bytes>): Session
    requires Sound(s)
    decreases |chunks|
  {
    if chunks == [] then Session([], Waiting(s, buf))
    else
      var r := Drain(s, buf + chunks[0]);
      if r.end.Waiting? then Prepend(r.cmds, Feed(r.end.s, r.end.buf, chunks[1..])) else r
  }

  predicate Stalled(s: Suspended, buf: Bytes)
    requires Sound(s)
  {
    Advance(s, buf).Stall?
  }

  lemma {:induction false} ParseEndsStalled(s: Suspended, buf: Bytes)
    requires Sound(s) && ParseOnce(s, buf).NeedMore?
    ensures Stalled(ParseOnce(s, buf).s, ParseOnce(s, buf).buf)
    decreases |buf|
  {
    var r := Advance(s, buf);
    if r.Go? {
      ParseEndsStalled(r.s, r.rest);
    }
  }

  lemma {:induction false} DrainEndsStalled(s: Suspended, buf: Bytes)
    requires Sound(s) && Drain(s, buf).end.Waiting?
    ensures Stalled(Drain(s, buf).end.s, Drain(s, buf).end.buf)
    decreases |buf|
  {
    if ParseOnce(s, buf).NeedMore? {
      ParseEndsStalled(s, buf);
    } else {
      DrainEndsStalled(AtStart, ParseOnce(s, buf).rest);
    }
  }

  lemma StalledDrains(s: Suspended, buf: Bytes)
    requires Sound(s) && Stalled(s, buf)
    ensures Drain(s, buf) == Session([], Waiting(s, buf))
  {
  }

  // Any way of cutting the stream into reads gives the commands, the error-or-not outcome and the
  // suspended state of parsing it in one piece.
  lemma {:induction false} ChunkingIrrelevant(s: Suspended, buf: Bytes, chunks: seq<Bytes>)
    requires Sound(s) && Stalled(s, buf)
    ensures Feed(s, buf, chunks) == Drain(s, buf + Concat(chunks))
    decreases |chunks|
  {
    if chunks == [] {
      assert buf + [] == buf;
      StalledDrains(s, buf);
    } else {
      var r := Drain(s, buf + chunks[0]);
      Assoc(buf, chunks[0], Concat(chunks[1..]));
      DrainResumes(s, buf + chunks[0], Concat(chunks[1..]));
      if r.end.Waiting? {
        DrainEndsStalled(s, buf + chunks[0]);
        ChunkingIrrelevant(r.end.s, r.end.buf, chunks[1..]);
      }
    }
  }

  // ---------------------------------------------------------------------------------------
  // The accepted language, stated without the parser: arrays of bulk strings, in which every
  // number may be spelled by any digit string denoting it.

  function Bulk(numeral: Bytes, arg: Bytes): Bytes {
    [DOLLAR] + numeral + CRLF + arg + CRLF
  }

  function Bulks(numerals: seq<Bytes>, args: Command): Bytes
    requires |numerals| == |args|
  {
    if args == [] then [] else Bulk(numerals[0], args[0]) + Bulks(numerals[1..], args[1..])
  }

  function Frame(count: Bytes, numerals: seq<Bytes>, args: Command): Bytes
    requires |numerals| == |args|
  {
    [STAR] + count + CRLF + Bulks(numerals, args)
  }

  predicate Spells(numeral: Bytes, n: nat) {
    Unsigned(numeral, USIZE_MAX) == Some(n)
  }

  predicate SpellsArg(numeral: Bytes, arg: Bytes) {
    Spells(numeral, |arg|) && |arg| + 2 < WORD
  }

  predicate SpellsArgs(numerals: seq<Bytes>, args: Command) {
    && |numerals| == |args|
    && forall i :: 0 <= i < |args| ==> SpellsArg(numerals[i], args[i])
  }

  predicate SpellsFrame(count: Bytes, numerals: seq<Bytes>, args: Command) {
    Spells(count, |args|) && SpellsArgs(numerals, args)
  }

  lemma {:induction false} NoLineEndBefore(text: Bytes, rest: Bytes, idx: nat)
    requires 1 <= idx <= |text| + 1
    requires forall i :: 0 <= i < |text| ==> text[i] != LF
    ensures LineEnd(text + CRLF + rest, idx) == Some(|text| + 1)
    decreases |text| - idx
  {
    if idx <= |text| {
      assert idx < |text| ==> (text + CRLF + rest)[idx] == text[idx];
      NoLineEndBefore(text, rest, idx + 1);
    }
  }

  lemma LengthLineSplits(kind: byte, numeral: Bytes, n: nat, rest: Bytes)
    requires kind != LF && Spells(numeral, n)
    ensures SplitLine([kind] + numeral + CRLF + rest) == Some(Line([kind] + numeral, rest))
    ensures LengthIn([kind] + numeral, kind) == Some(n)
  {
    var text := [kind] + numeral;
    NoLineEndBefore(text, rest, 1);
    Slices(text, CRLF, rest);
    assert text[1..] == numeral;
  }

  lemma DataParses(count: nat, done: Command, arg: Bytes, rest: Bytes)
    requires |done| < count && |arg| + 2 < WORD
    ensures ParseOnce(AtData(count, done, |arg|), arg + CRLF + rest) ==
            if |done| + 1 == count then Ready(done + [arg], rest)
            else ParseOnce(AtLength(count, done + [arg]), rest)
  {
    var data := arg + CRLF + rest;
    Slices(arg, CRLF, rest);
    assert data[|arg| + 0] == CRLF[0] && data[|arg| + 1] == CRLF[1];
    SmallMod(|arg| + 2);
    assert Advance(AtData(count, done, |arg|), data) ==
           if |done + [arg]| == count then Emit(done + [arg], rest) else Go(AtLength(count, done + [arg]), rest);
  }

  lemma SmallMod(n: nat)
    requires n < WORD
    ensures n % WORD == n
  {
  }

  lemma BulkSplits(numeral: Bytes, arg: Bytes, rest: Bytes)
    ensures Bulk(numeral, arg) + rest == [DOLLAR] + numeral + CRLF + (arg + CRLF + rest)
  {
    var header := [DOLLAR] + numeral + CRLF;
    Assoc(header, arg, CRLF);
    Assoc(header, arg + CRLF, rest);
  }

  lemma BulkParses(count: nat, done: Command, numeral: Bytes, arg: Bytes, rest: Bytes)
    requires |done| < count && SpellsArg(numeral, arg)
    ensures ParseOnce(AtLength(count, done), Bulk(numeral, arg) + rest) ==
            if |done| + 1 == count then Ready(done + [arg], rest)
            else ParseOnce(AtLength(count, done + [arg]), rest)
  {
    var buf, data := Bulk(numeral, arg) + rest, arg + CRLF + rest;
    BulkSplits(numeral, arg, rest);
    LengthLineSplits(DOLLAR, numeral, |arg|, data);
    assert Advance(AtLength(count, done), buf) == Go(AtData(count, done, |arg|), data);
    DataParses(count, done, arg, rest);
  }

  lemma {:induction false} BulksParse(count: nat, done: Command, numerals: seq<Bytes>, args: Command, rest: Bytes)
    requires args != [] && |done| + |args| == count && SpellsArgs(numerals, args)
    ensures ParseOnce(AtLength(count, done), Bulks(numerals, args) + rest) == Ready(done + args, rest)
    decreases |args|
  {
    var tail := Bulks(numerals[1..], args[1..]) + rest;
    Assoc(Bulk(numerals[0], args[0]), Bulks(numerals[1..], args[1..]), rest);
    BulkParses(count, done, numerals[0], args[0], tail);
    if |args| == 1 {
      assert args == [args[0]];
      assert tail == rest;
    } else {
      BulksParse(count, done + [args[0]], numerals[1..], args[1..], rest);
      Assoc(done, [args[0]], args[1..]);
      assert [args[0]] + args[1..] == args;
    }
  }

  // Every frame is accepted, whatever bytes its arguments hold, and what follows is left alone.
  lemma FrameParses(count: Bytes, numerals: seq<Bytes>, args: Command, rest: Bytes)
    requires SpellsFrame(count, numerals, args)
    ensures ParseOnce(AtStart, Frame(count, numerals, args) + rest) == Ready(args, rest)
  {
    var tail := Bulks(numerals, args) + rest;
    assert Frame(count, numerals, args) + rest == [STAR] + count + CRLF + tail;
    LengthLineSplits(STAR, count, |args|, tail);
    if args == [] {
      assert tail == rest;
    } else {
      BulksParse(|args|, [], numerals, args, rest);
      assert [] + args == args;
    }
  }

  // The parser takes a whole bulk string off the front of the buffer.
  predicate TakesBulk(count: nat, done: Command, buf: Bytes)
    requires |done| < count
  {
    var r := Advance(AtLength(count, done), buf);
    r.Go? && (Advance(r.s, r.rest).Go? || Advance(r.s, r.rest).Emit?)
  }

  lemma LengthLineParsed(buf: Bytes, kind: byte) returns (numeral: Bytes, n: nat, data: Bytes)
    requires SplitLine(buf).Some? && LengthIn(SplitLine(buf).value.text, kind).Some?
    ensures Spells(numeral, n) && buf == [kind] + numeral + CRLF + data
    ensures data == SplitLine(buf).value.rest && n == LengthIn(SplitLine(buf).value.text, kind).value
  {
    var line := SplitLine(buf).value;
    numeral, n, data := line.text[1..], LengthIn(line.text, kind).value, line.rest;
    assert line.text == [kind] + numeral;
  }

  lemma BulkParsed(count: nat, done: Command, buf: Bytes) returns (numeral: Bytes, arg: Bytes, after: Bytes)
    requires |done| < count && TakesBulk(count, done, buf)
    ensures SpellsArg(numeral, arg) && buf == Bulk(numeral, arg) + after
    ensures |after| < |buf|
  {
    var n, data;
    numeral, n, data := LengthLineParsed(buf, DOLLAR);
    assert Advance(AtLength(count, done), buf) == Go(AtData(count, done, n), data);
    arg, after := data[..n], data[n + 2..];
    assert data == arg + [data[n], data[n + 1]] + after;
    BulkSplits(numeral, arg, after);
  }

  lemma BulksCons(numeral: Bytes, arg: Bytes, numerals: seq<Bytes>, args: Command, rest: Bytes)
    requires SpellsArg(numeral, arg) && SpellsArgs(numerals, args)
    ensures SpellsArgs([numeral] + numerals, [arg] + args)
    ensures Bulks([numeral] + numerals, [arg] + args) + rest == Bulk(numeral, arg) + (Bulks(numerals, args) + rest)
  {
    assert ([numeral] + numerals)[1..] == numerals && ([arg] + args)[1..] == args;
    Assoc(Bulk(numeral, arg), Bulks(numerals, args), rest);
  }

  lemma {:induction false} BulksParsed(count: nat, done: Command, buf: Bytes)
    returns (numerals: seq<Bytes>, args: Command)
    requires |done| < count && ParseOnce(AtLength(count, done), buf).Ready?
    ensures ParseOnce(AtLength(count, done), buf).cmd == done + args && |done| + |args| == count
    ensures SpellsArgs(numerals, args)
    ensures buf == Bulks(numerals, args) + ParseOnce(AtLength(count, done), buf).rest
    decreases |buf|
  {
    var r := ParseOnce(AtLength(count, done), buf);
    var numeral, arg, after := BulkParsed(count, done, buf);
    BulkParses(count, done, numeral, arg, after);
    if |done| + 1 == count {
      numerals, args := [numeral], [arg];
      BulksCons(numeral, arg, [], [], after);
      assert [] + after == after;
    } else {
      var numerals', args' := BulksParsed(count, done + [arg], after);
      numerals, args := [numeral] + numerals', [arg] + args';
      BulksCons(numeral, arg, numerals', args', r.rest);
      Assoc(done, [arg], args');
    }
  }

  lemma FrameParsed(buf: Bytes) returns (count: Bytes, numerals: seq<Bytes>)
    requires ParseOnce(AtStart, buf).Ready?
    ensures SpellsFrame(count, numerals, ParseOnce(AtStart, buf).cmd)
    ensures buf == Frame(count, numerals, ParseOnce(AtStart, buf).cmd) + ParseOnce(AtStart, buf).rest
  {
    var r := ParseOnce(AtStart, buf);
    var line := SplitLine(buf).value;
    var n := LengthIn(line.text, STAR).value;
    count := line.text[1..];
    assert line.text == [STAR] + count;
    if n > 0 {
      var args;
      numerals, args := BulksParsed(n, [], line.rest);
      assert [] + args == args;
      Assoc([STAR] + count + CRLF, Bulks(numerals, args), r.rest);
    } else {
      numerals := [];
      assert Bulks([], []) + r.rest == r.rest;
      Assoc([STAR] + count + CRLF, [], r.rest);
    }
  }

  // The parser accepts exactly the frames: it answers `args` and leaves `rest` if and only if the
  // buffer is a frame of `args` followed by `rest`.
  lemma ParseAcceptsExactlyFrames(buf: Bytes, args: Command, rest: Bytes)
    ensures ParseOnce(AtStart, buf) == Ready(args, rest)
            <==> exists count, numerals ::
                   SpellsFrame(count, numerals, args) && buf == Frame(count, numerals, args) + rest
  {
    if ParseOnce(AtStart, buf) == Ready(args, rest) {
      var count, numerals := FrameParsed(buf);
    }
    forall count, numerals | SpellsFrame(count, numerals, args) && buf == Frame(count, numerals, args) + rest
      ensures ParseOnce(AtStart, buf) == Ready(args, rest)
    {
      FrameParses(count, numerals, args, rest);
    }
  }

  // ---------------------------------------------------------------------------------------
  // Proper prefixes of a frame.

  // No proper prefix of a frame yields a command or an error: the parser just waits.
  lemma ProperPrefixWaits(count: Bytes, numerals: seq<Bytes>, args: Command, cut: nat)
    requires SpellsFrame(count, numerals, args) && cut < |Frame(count, numerals, args)|
    ensures ParseOnce(AtStart, Frame(count, numerals, args)[..cut]).NeedMore?
  {
    var whole := Frame(count, numerals, args);
    var a, b := whole[..cut], whole[cut..];
    assert a + b == whole && whole + [] == whole;
    FrameParses(count, numerals, args, []);
    ParseExtends(AtStart, a, b);
  }

  // ---------------------------------------------------------------------------------------
  // Where the arithmetic of the length gives out.

  // A length line declaring one of the two largest usize values, with enough bytes behind it
  // for the parser to try and take the data.
  predicate Oversize(numeral: Bytes, rest: Bytes) {
    match Unsigned(numeral, USIZE_MAX)
    case None => false
    case Some(n) => n + 2 >= WORD && |rest| >= (n + 2) % WORD
  }

  function LengthLine(kind: byte, numeral: Bytes, rest: Bytes): Bytes {
    [kind] + numeral + CRLF + rest
  }

  // What the parser makes of complete bulk strings fewer than declared: it goes on behind them.
  lemma {:induction false} BulksSkip(count: nat, done: Command, numerals: seq<Bytes>, args: Command, tail: Bytes)
    requires SpellsArgs(numerals, args) && |done| + |args| < count
    ensures ParseOnce(AtLength(count, done), Bulks(numerals, args) + tail)
         == ParseOnce(AtLength(count, done + args), tail)
    decreases |args|
  {
    if args == [] {
      assert [] + tail == tail && done + args == done;
    } else {
      var after := Bulks(numerals[1..], args[1..]) + tail;
      Assoc(Bulk(numerals[0], args[0]), Bulks(numerals[1..], args[1..]), tail);
      BulkParses(count, done, numerals[0], args[0], after);
      BulksSkip(count, done + [args[0]], numerals[1..], args[1..], tail);
      Assoc(done, [args[0]], args[1..]);
      assert [args[0]] + args[1..] == args;
    }
  }

  // One bulk string of a command that is not complete.
  lemma BulkTaken(count: nat, done: Command, buf: Bytes) returns (numeral: Bytes, arg: Bytes, after: Bytes)
    requires |done| < count && TakesBulk(count, done, buf) && !ParseOnce(AtLength(count, done), buf).Ready?
    ensures SpellsArg(numeral, arg) && buf == Bulk(numeral, arg) + after && |after| < |buf| && |done| + 1 < count
    ensures ParseOnce(AtLength(count, done), buf) == ParseOnce(AtLength(count, done + [arg]), after)
  {
    numeral, arg, after := BulkParsed(count, done, buf);
    BulkParses(count, done, numeral, arg, after);
  }

  // `buf` is complete bulk strings, fewer than are due, and then `tail`, where the parser goes on.
  ghost predicate Skips(count: nat, done: Command, buf: Bytes, numerals: seq<Bytes>, args: Command, tail: Bytes) {
    && SpellsArgs(numerals, args) && |done| + |args| < count && buf == Bulks(numerals, args) + tail
    && ParseOnce(AtLength(count, done), buf) == ParseOnce(AtLength(count, done + args), tail)
    && !TakesBulk(count, done + args, tail)
  }

  lemma SkipsCons(count: nat, done: Command, buf: Bytes, numeral: Bytes, arg: Bytes, after: Bytes,
                  numerals: seq<Bytes>, args: Command, tail: Bytes)
    requires SpellsArg(numeral, arg) && buf == Bulk(numeral, arg) + after && |done| + 1 < count
    requires ParseOnce(AtLength(count, done), buf) == ParseOnce(AtLength(count, done + [arg]), after)
    requires Skips(count, done + [arg], after, numerals, args, tail)
    ensures Skips(count, done, buf, [numeral] + numerals, [arg] + args, tail)
  {
    BulksCons(numeral, arg, numerals, args, tail);
    Assoc(done, [arg], args);
  }

  // A buffer without a command begins with complete bulk strings and goes on with something else.
  lemma {:induction false} BulksSkipped(count: nat, done: Command, buf: Bytes)
    returns (numerals: seq<Bytes>, args: Command, tail: Bytes)
    requires |done| < count && !ParseOnce(AtLength(count, done), buf).Ready?
    ensures Skips(count, done, buf, numerals, args, tail)
    decreases |buf|
  {
    if TakesBulk(count, done, buf) {
      var first, arg, after := BulkTaken(count, done, buf);
      numerals, args, tail := BulksSkipped(count, done + [arg], after);
      SkipsCons(count, done, buf, first, arg, after, numerals, args, tail);
      numerals, args := [first] + numerals, [arg] + args;
    } else {
      numerals, args, tail := [], [], buf;
      assert [] + buf == buf && done + [] == done;
    }
  }

  lemma CrashFound(count: nat, done: Command, buf: Bytes) returns (numeral: Bytes, rest: Bytes)
    requires |done| < count && ParseOnce(AtLength(count, done), buf).Panic? && !TakesBulk(count, done, buf)
    ensures Oversize(numeral, rest) && buf == LengthLine(DOLLAR, numeral, rest)
  {
    var line := SplitLine(buf).value;
    numeral, rest := line.text[1..], line.rest;
    assert line.text == [DOLLAR] + numeral;
  }

  lemma OversizeLinePanics(count: nat, done: Command, numeral: Bytes, rest: Bytes)
    requires |done| < count && Oversize(numeral, rest)
    ensures ParseOnce(AtLength(count, done), LengthLine(DOLLAR, numeral, rest)).Panic?
  {
    LengthLineSplits(DOLLAR, numeral, Unsigned(numeral, USIZE_MAX).value, rest);
  }

  // A fresh parser panics on exactly these buffers: an array header, complete bulk strings fewer
  // than it declares, and then an oversize length line.
  ghost predicate OversizeFrame(buf: Bytes, header: Bytes, numerals: seq<Bytes>, args: Command, numeral: Bytes,
                                rest: Bytes) {
    && Unsigned(header, USIZE_MAX).Some? && |args| < Unsigned(header, USIZE_MAX).value
    && SpellsArgs(numerals, args) && Oversize(numeral, rest)
    && buf == LengthLine(STAR, header, Bulks(numerals, args) + LengthLine(DOLLAR, numeral, rest))
  }

  lemma OversizeFrameFound(buf: Bytes)
    returns (header: Bytes, numerals: seq<Bytes>, args: Command, numeral: Bytes, rest: Bytes)
    requires ParseOnce(AtStart, buf).Panic?
    ensures OversizeFrame(buf, header, numerals, args, numeral, rest)
  {
    var n, body, tail;
    header, n, body := LengthLineParsed(buf, STAR);
    numerals, args, tail := BulksSkipped(n, [], body);
    assert [] + args == args;
    numeral, rest := CrashFound(n, args, tail);
  }

  lemma OversizeFramePanics(buf: Bytes, header: Bytes, numerals: seq<Bytes>, args: Command, numeral: Bytes,
                            rest: Bytes)
    requires OversizeFrame(buf, header, numerals, args, numeral, rest)
    ensures ParseOnce(AtStart, buf).Panic?
  {
    var n := Unsigned(header, USIZE_MAX).value;
    LengthLineSplits(STAR, header, n, Bulks(numerals, args) + LengthLine(DOLLAR, numeral, rest));
    BulksSkip(n, [], numerals, args, LengthLine(DOLLAR, numeral, rest));
    assert [] + args == args;
    OversizeLinePanics(n, args, numeral, rest);
  }

  lemma PanicsExactlyOnOversizeFrames(buf: Bytes)
    ensures ParseOnce(AtStart, buf).Panic? <==>
            exists header, numerals, args, numeral, rest :: OversizeFrame(buf, header, numerals, args, numeral, rest)
  {
    if ParseOnce(AtStart, buf).Panic? {
      var header, numerals, args, numeral, rest := OversizeFrameFound(buf);
    }
    forall header, numerals, args, numeral, rest | OversizeFrame(buf, header, numerals, args, numeral, rest)
      ensures ParseOnce(AtStart, buf).Panic?
    {
      OversizeFramePanics(buf, header, numerals, args, numeral, rest);
    }
  }

  function OversizeHeader(n: nat, rest: Bytes): Bytes {
    LengthLine(STAR, Digits(1), LengthLine(DOLLAR, Digits(n), rest))
  }

  // One argument of declared length usize::MAX - 1 panics with its header alone, one of length
  // usize::MAX with the first byte behind it.
  lemma OversizeExample(n: nat, rest: Bytes)
    requires (n == USIZE_MAX - 1 && rest == []) || (n == USIZE_MAX && |rest| == 1)
    ensures ParseOnce(AtStart, OversizeHeader(n, rest)).Panic?
  {
    UnsignedRoundTrip(1, USIZE_MAX);
    UnsignedRoundTrip(n, USIZE_MAX);
    assert Bulks([], []) + LengthLine(DOLLAR, Digits(n), rest) == LengthLine(DOLLAR, Digits(n), rest);
    assert OversizeFrame(OversizeHeader(n, rest), Digits(1), [], [], Digits(n), rest);
    PanicsExactlyOnOversizeFrames(OversizeHeader(n, rest));
  }

  // ---------------------------------------------------------------------------------------
  // The code.

  class Buffer {
    var data: Bytes

    constructor ()
      ensures data == []
    {
      data := [];
    }
  }

  // read_line: takes the first CRLF-terminated line off the buffer, if there is one.
  method ReadLine(buf: Buffer) returns (r: Option<Bytes>)
    modifies buf
    ensures match SplitLine(old(buf.data))
            case None => r.None? && buf.data == old(buf.data)
            case Some(line) => r == Some(line.text) && buf.data == line.rest
  {
    var idx := 1;
    while idx < |buf.data|
      invariant 1 <= idx
      invariant buf.data == old(buf.data)
      invariant LineEnd(buf.data, idx) == LineEnd(buf.data, 1)
    {
      if buf.data[idx] == LF && buf.data[idx - 1] == CR {
        var line := buf.data[..idx - 1];
        buf.data := buf.data[idx + 1..];
        return Some(line);
      }
      idx := idx + 1;
    }
    r := None;
  }

  datatype ParseState = ArrayLen | BulkLen | BulkData

  datatype ParseResult = Incomplete | Parsed(args: Command) | Malformed | Overflowed

  class RespParser {
    var state: ParseState
    var args: Command
    var remaining: nat
    var bulkLen: nat
    ghost var declared: nat

    ghost predicate Valid()
      reads this
    {
      !state.ArrayLen? ==> remaining >= 1 && |args| + remaining == declared
    }

    // `bulkLen`, `remaining` and `args` may hold leftovers in states that do not use them.
    ghost function View(): (s: Suspended)
      requires Valid()
      reads this
      ensures Sound(s)
    {
      match state
      case ArrayLen => AtStart
      case BulkLen => AtLength(declared, args)
      case BulkData => AtData(declared, args, bulkLen)
    }

    constructor ()
      ensures Valid() && View() == AtStart
    {
      state := ArrayLen;
      args := [];
      remaining := 0;
      bulkLen := 0;
    }

    // What one turn of the loop leaves behind: an answer, or a state to go on from.
    ghost predicate Took(step: Step, r: Option<ParseResult>, data: Bytes, before: Suspended, beforeData: Bytes)
      requires Valid()
      reads this
    {
      match step
      case Stall => r == Some(Incomplete) && View() == before && data == beforeData
      case Fail => r == Some(Malformed)
      case Crash => r == Some(Overflowed)
      case Emit(cmd, rest) => r == Some(Parsed(cmd)) && View() == AtStart && data == rest
      case Go(s, rest) => r == None && View() == s && data == rest
    }

    method ArrayLenTurn(buf: Buffer) returns (r: Option<ParseResult>)
      requires Valid() && state == ArrayLen
      modifies this, buf
      ensures Valid() && Took(Advance(old(View()), old(buf.data)), r, buf.data, old(View()), old(buf.data))
    {
      var line := ReadLine(buf);
      if line == None {
        return Some(Incomplete);
      }
      if line.value == [] || line.value[0] != STAR {
        return Some(Malformed);
      }
      var count := ParseUnsigned(line.value[1..], USIZE_MAX);
      if count == None {
        return Some(Malformed);
      }
      args := [];
      remaining := count.value;
      declared := count.value;
      if remaining == 0 {
        state := ArrayLen;
        return Some(Parsed([]));
      }
      state := BulkLen;
      r := None;
    }

    method BulkLenTurn(buf: Buffer) returns (r: Option<ParseResult>)
      requires Valid() && state == BulkLen
      modifies this, buf
      ensures Valid() && Took(Advance(old(View()), old(buf.data)), r, buf.data, old(View()), old(buf.data))
    {
      var line := ReadLine(buf);
      if line == None {
        return Some(Incomplete);
      }
      if line.value == [] || line.value[0] != DOLLAR {
        return Some(Malformed);
      }
      var len := ParseUnsigned(line.value[1..], USIZE_MAX);
      if len == None {
        return Some(Malformed);
      }
      bulkLen := len.value;
      state := BulkData;
      r := None;
    }

    method BulkDataTurn(buf: Buffer) returns (r: Option<ParseResult>)
      requires Valid() && state == BulkData
      modifies this, buf
      ensures Valid() && Took(Advance(old(View()), old(buf.data)), r, buf.data, old(View()), old(buf.data))
    {
      if |buf.data| < (bulkLen + 2) % WORD {
        return Some(Incomplete);
      }
      if bulkLen + 2 >= WORD {
        return Some(Overflowed);
      }
      var data := buf.data[..bulkLen];
      if buf.data[bulkLen] != CR || buf.data[bulkLen + 1] != LF {
        return Some(Malformed);
      }
      buf.data := buf.data[bulkLen + 2..];
      args := args + [data];
      remaining := remaining - 1;
      if remaining == 0 {
        state := ArrayLen;
        r := Some(Parsed(args));
        args := [];
        return;
      }
      state := BulkLen;
      r := None;
    }

    // One call. The loop terminates because every turn that goes on consumes at least two bytes,
    // and the decrement of `remaining` never underflows.
    method Parse(buf: Buffer) returns (r: ParseResult)
      requires Valid()
      modifies this, buf
      ensures Valid()
      ensures match ParseOnce(old(View()), old(buf.data))
              case NeedMore(s, rest) => r == Incomplete && View() == s && buf.data == rest
              case Ready(cmd, rest) => r == Parsed(cmd) && View() == AtStart && buf.data == rest
              case ProtocolError => r == Malformed
              case Panic => r == Overflowed
    {
      var done: Option<ParseResult> := None;
      while true
        invariant Valid()
        invariant ParseOnce(View(), buf.data) == ParseOnce(old(View()), old(buf.data))
        decreases |buf.data|
      {
        match state {
          case ArrayLen => done := ArrayLenTurn(buf);
          case BulkLen => done := BulkLenTurn(buf);
          case BulkData => done := BulkDataTurn(buf);
        }
        if done.Some? {
          return done.value;
        }
      }
    }
  }

  // How a drained connection stands after its last call returned `last`.
  function EndOf(last: ParseResult, s: Suspended, data: Bytes): End {
    match last
    case Malformed => Failed
    case Overflowed => Panicked
    case _ => Waiting(s, data)
  }

  // The inner loop of a connection: parse until more data is needed or an error stops it.
  method DrainBuffer(parser: RespParser, buffer: Buffer) returns (cmds: seq<Command>, last: ParseResult)
    requires parser.Valid()
    modifies parser, buffer
    ensures parser.Valid() && !last.Parsed?
    ensures Drain(old(parser.View()), old(buffer.data)) == Session(cmds, EndOf(last, parser.View(), buffer.data))
  {
    cmds := [];
    while true
      invariant parser.Valid()
      invariant Drain(old(parser.View()), old(buffer.data)) == Prepend(cmds, Drain(parser.View(), buffer.data))
      decreases |buffer.data|
    {
      last := parser.Parse(buffer);
      if !last.Parsed? {
        return;
      }
      Assoc(cmds, [last.args], Drain(AtStart, buffer.data).cmds);
      cmds := cmds + [last.args];
    }
  }

  lemma FeedTurn(cmds: seq<Command>, s: Suspended, buf: Bytes, chunks: seq<Bytes>, i: nat)
    requires Sound(s) && i < |chunks|
    ensures var r := Drain(s, buf + chunks[i]);
            Prepend(cmds, Feed(s, buf, chunks[i..])) ==
            if r.end.Waiting? then Prepend(cmds + r.cmds, Feed(r.end.s, r.end.buf, chunks[i + 1..]))
            else Session(cmds + r.cmds, r.end)
  {
    var r := Drain(s, buf + chunks[i]);
    assert chunks[i..][1..] == chunks[i + 1..];
    if r.end.Waiting? {
      Assoc(cmds, r.cmds, Feed(r.end.s, r.end.buf, chunks[i + 1..]).cmds);
    }
  }

  // What the connection loop saw last when a session ended.
  function Seen(end: End): ParseResult {
    match end
    case Waiting(_, _) => Incomplete
    case Failed => Malformed
    case Panicked => Overflowed
  }

  // The read loop: each read is appended to the buffer and drained.
  method ReadLoop(chunks: seq<Bytes>) returns (cmds: seq<Command>, last: ParseResult)
    ensures cmds == Feed(AtStart, [], chunks).cmds && last == Seen(Feed(AtStart, [], chunks).end)
  {
    ghost var whole := Feed(AtStart, [], chunks);
    var buffer := new Buffer();
    var parser := new RespParser();
    cmds := [];
    assert chunks[0..] == chunks && [] + whole.cmds == whole.cmds;
    for i := 0 to |chunks|
      invariant parser.Valid()
      invariant whole == Prepend(cmds, Feed(parser.View(), buffer.data, chunks[i..]))
    {
      FeedTurn(cmds, parser.View(), buffer.data, chunks, i);
      buffer.data := buffer.data + chunks[i];
      var drained;
      drained, last := DrainBuffer(parser, buffer);
      cmds := cmds + drained;
      if !last.Incomplete? {
        return;
      }
    }
    last := Incomplete;
    assert chunks[|chunks|..] == [];
  }

  // One connection: `chunks` are the reads before end of file, none of them empty, `cmds` the commands
  // handed to dispatch. The result does not mention how the stream was cut.
  method HandleConnection(chunks: seq<Bytes>) returns (cmds: seq<Command>, last: ParseResult)
    requires forall i :: 0 <= i < |chunks| ==> chunks[i] != []
    ensures cmds == Drain(AtStart, Concat(chunks)).cmds
    ensures last == Seen(Drain(AtStart, Concat(chunks)).end)
  {
    ChunkingIrrelevant(AtStart, [], chunks);
    assert [] + Concat(chunks) == Concat(chunks);
    cmds, last := ReadLoop(chunks);
  }
}
