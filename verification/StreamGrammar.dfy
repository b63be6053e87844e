/**
 What the server's parser (hkv-server/src/protocol.rs) refuses, and what a whole session is: every stream
 is frames and then one of three things, and the parser tells which.
 */
module StreamGrammar {
  import opened Base
  import opened Decimal
  import opened ServerParser

  // ---------------------------------------------------------------------------------------
  // Lines.

  predicate NoCrlf(text: Bytes) {
    forall k :: 1 <= k < |text| ==> !(text[k - 1] == CR && text[k] == LF)
  }

  lemma {:induction false} LineEndFound(buf: Bytes, idx: nat, n: nat)
    requires 1 <= idx <= n < |buf| && buf[n] == LF && buf[n - 1] == CR
    requires forall k :: idx <= k < n ==> !(buf[k] == LF && buf[k - 1] == CR)
    ensures LineEnd(buf, idx) == Some(n)
    decreases n - idx
  {
    if idx < n {
      LineEndFound(buf, idx + 1, n);
    }
  }

  // The line taken off a buffer is what comes before the first CRLF.
  lemma SplitsExactlyAtFirstCrlf(buf: Bytes, text: Bytes, rest: Bytes)
    ensures SplitLine(buf) == Some(Line(text, rest)) <==> buf == text + CRLF + rest && NoCrlf(text)
  {
    if buf == text + CRLF + rest && NoCrlf(text) {
      var n := |text| + 1;
      forall k | 1 <= k < n ensures !(buf[k] == LF && buf[k - 1] == CR) {
        assert k < |text| ==> buf[k] == text[k] && buf[k - 1] == text[k - 1];
      }
      LineEndFound(buf, 1, n);
      Slices(text, CRLF, rest);
    }
    if SplitLine(buf) == Some(Line(text, rest)) {
      forall k | 1 <= k < |text| ensures !(text[k - 1] == CR && text[k] == LF) {
        assert buf[k] == text[k] && buf[k - 1] == text[k - 1];
      }
    }
  }

  // Not a type byte and digits.
  predicate BadLine(text: Bytes, kind: byte) {
    |text| < 2 || text[0] != kind || !AllDigits(text[1..])
  }

  // The buffer begins with a complete line of which nothing can be made.
  ghost predicate BeginsBadly(buf: Bytes, kind: byte) {
    exists text, rest :: buf == text + CRLF + rest && NoCrlf(text) && BadLine(text, kind)
  }

  lemma BeginsBadlyExactly(buf: Bytes, kind: byte)
    ensures BeginsBadly(buf, kind) <==>
            SplitLine(buf).Some? && LengthIn(SplitLine(buf).value.text, kind).None?
  {
    if BeginsBadly(buf, kind) {
      var text, rest :| buf == text + CRLF + rest && NoCrlf(text) && BadLine(text, kind);
      SplitsExactlyAtFirstCrlf(buf, text, rest);
    }
    if SplitLine(buf).Some? && LengthIn(SplitLine(buf).value.text, kind).None? {
      SplitsExactlyAtFirstCrlf(buf, SplitLine(buf).value.text, SplitLine(buf).value.rest);
    }
  }

  // ---------------------------------------------------------------------------------------
  // Refusals.

  // A bulk string whose data is followed by two bytes other than CRLF.
  predicate WrongTerminator(tail: Bytes, numeral: Bytes, data: Bytes, two: Bytes, rest: Bytes) {
    && SpellsArg(numeral, data) && |two| == 2 && two != CRLF
    && tail == LengthLine(DOLLAR, numeral, data + two + rest)
  }

  ghost predicate BadBulk(tail: Bytes) {
    || BeginsBadly(tail, DOLLAR)
    || exists numeral, data, two, rest :: WrongTerminator(tail, numeral, data, two, rest)
  }

  lemma WrongTerminatorFails(count: nat, done: Command, tail: Bytes, numeral: Bytes, data: Bytes, two: Bytes,
                             rest: Bytes)
    requires |done| < count && WrongTerminator(tail, numeral, data, two, rest)
    ensures ParseOnce(AtLength(count, done), tail) == ProtocolError
  {
    var body := data + two + rest;
    LengthLineSplits(DOLLAR, numeral, |data|, body);
    SmallMod(|data| + 2);
    Slices(data, two, rest);
    assert body[|data| + 0] == two[0] && body[|data| + 1] == two[1];
    assert two == [two[0], two[1]];
    assert Advance(AtData(count, done, |data|), body) == Fail;
  }

  lemma WrongTerminatorFound(count: nat, done: Command, tail: Bytes)
    returns (numeral: Bytes, data: Bytes, two: Bytes, rest: Bytes)
    requires |done| < count && ParseOnce(AtLength(count, done), tail) == ProtocolError
    requires !TakesBulk(count, done, tail) && Advance(AtLength(count, done), tail).Go?
    ensures WrongTerminator(tail, numeral, data, two, rest)
  {
    var n, body;
    numeral, n, body := LengthLineParsed(tail, DOLLAR);
    assert Advance(AtLength(count, done), tail) == Go(AtData(count, done, n), body);
    data, two, rest := body[..n], body[n..n + 2], body[n + 2..];
    assert body == data + two + rest;
  }

  lemma BadBulkExactly(count: nat, done: Command, tail: Bytes)
    requires |done| < count && !TakesBulk(count, done, tail)
    ensures ParseOnce(AtLength(count, done), tail) == ProtocolError <==> BadBulk(tail)
  {
    BeginsBadlyExactly(tail, DOLLAR);
    if ParseOnce(AtLength(count, done), tail) == ProtocolError && Advance(AtLength(count, done), tail).Go? {
      var numeral, data, two, rest := WrongTerminatorFound(count, done, tail);
    }
    if BadBulk(tail) && !BeginsBadly(tail, DOLLAR) {
      var numeral, data, two, rest :| WrongTerminator(tail, numeral, data, two, rest);
      WrongTerminatorFails(count, done, tail, numeral, data, two, rest);
    }
  }

  lemma BadBulkFails(count: nat, done: Command, tail: Bytes)
    requires |done| < count && BadBulk(tail)
    ensures ParseOnce(AtLength(count, done), tail) == ProtocolError
  {
    BeginsBadlyExactly(tail, DOLLAR);
    if !BeginsBadly(tail, DOLLAR) {
      var numeral, data, two, rest :| WrongTerminator(tail, numeral, data, two, rest);
      WrongTerminatorFails(count, done, tail, numeral, data, two, rest);
    }
  }

  // An array header, complete bulk strings fewer than it declares, and then a bad one.
  ghost predicate BadFrame(buf: Bytes, header: Bytes, numerals: seq<Bytes>, args: Command, tail: Bytes) {
    && Unsigned(header, USIZE_MAX).Some? && |args| < Unsigned(header, USIZE_MAX).value
    && SpellsArgs(numerals, args) && BadBulk(tail)
    && buf == LengthLine(STAR, header, Bulks(numerals, args) + tail)
  }

  ghost predicate Malformed(buf: Bytes) {
    || BeginsBadly(buf, STAR)
    || exists header, numerals, args, tail :: BadFrame(buf, header, numerals, args, tail)
  }

  lemma BadFrameFound(buf: Bytes) returns (header: Bytes, numerals: seq<Bytes>, args: Command, tail: Bytes)
    requires ParseOnce(AtStart, buf) == ProtocolError && Advance(AtStart, buf).Go?
    ensures BadFrame(buf, header, numerals, args, tail)
  {
    var n, body;
    header, n, body := LengthLineParsed(buf, STAR);
    numerals, args, tail := BulksSkipped(n, [], body);
    assert [] + args == args;
    BadBulkExactly(n, args, tail);
  }

  lemma BadFrameFails(buf: Bytes, header: Bytes, numerals: seq<Bytes>, args: Command, tail: Bytes)
    requires BadFrame(buf, header, numerals, args, tail)
    ensures ParseOnce(AtStart, buf) == ProtocolError
  {
    var n := Unsigned(header, USIZE_MAX).value;
    LengthLineSplits(STAR, header, n, Bulks(numerals, args) + tail);
    BulksSkip(n, [], numerals, args, tail);
    assert [] + args == args;
    BadBulkFails(n, args, tail);
  }

  // A fresh parser reports a protocol error on exactly the malformed buffers: it fails as soon as it can
  // tell, and never on anything that could still become a frame.
  lemma RefusesExactlyMalformed(buf: Bytes)
    ensures ParseOnce(AtStart, buf) == ProtocolError <==> Malformed(buf)
  {
    BeginsBadlyExactly(buf, STAR);
    if ParseOnce(AtStart, buf) == ProtocolError && Advance(AtStart, buf).Go? {
      var header, numerals, args, tail := BadFrameFound(buf);
    }
    if Malformed(buf) && !BeginsBadly(buf, STAR) {
      var header, numerals, args, tail :| BadFrame(buf, header, numerals, args, tail);
      BadFrameFails(buf, header, numerals, args, tail);
    }
  }

  // ---------------------------------------------------------------------------------------
  // Sessions.

  ghost predicate Framed(buf: Bytes, cmd: Command, rest: Bytes) {
    exists count, numerals :: SpellsFrame(count, numerals, cmd) && buf == Frame(count, numerals, cmd) + rest
  }

  ghost predicate Frames(buf: Bytes, cmds: seq<Command>, rest: Bytes)
    decreases |cmds|
  {
    if cmds == [] then buf == rest
    else exists mid :: Framed(buf, cmds[0], mid) && Frames(mid, cmds[1..], rest)
  }

  ghost predicate Oversized(buf: Bytes) {
    exists header, numerals, args, numeral, rest :: OversizeFrame(buf, header, numerals, args, numeral, rest)
  }

  ghost predicate BeginsFrame(buf: Bytes) {
    exists cmd, rest :: Framed(buf, cmd, rest)
  }

  // How a session ends on what is left behind the last frame.
  ghost predicate EndsOn(rest: Bytes, end: End) {
    match end
    case Failed => Malformed(rest)
    case Panicked => Oversized(rest)
    case Waiting(s, buf) =>
      && !BeginsFrame(rest) && !Malformed(rest) && !Oversized(rest)
      && ParseOnce(AtStart, rest) == NeedMore(s, buf)
  }

  lemma FramedExactly(buf: Bytes, cmd: Command, rest: Bytes)
    ensures Framed(buf, cmd, rest) <==> ParseOnce(AtStart, buf) == Ready(cmd, rest)
  {
    ParseAcceptsExactlyFrames(buf, cmd, rest);
  }

  lemma EndsExactly(rest: Bytes, end: End)
    ensures EndsOn(rest, end) <==> Drain(AtStart, rest) == Session([], end)
  {
    RefusesExactlyMalformed(rest);
    PanicsExactlyOnOversizeFrames(rest);
    if BeginsFrame(rest) {
      var cmd, more :| Framed(rest, cmd, more);
      FramedExactly(rest, cmd, more);
    } else if ParseOnce(AtStart, rest).Ready? {
      var r := ParseOnce(AtStart, rest);
      FramedExactly(rest, r.cmd, r.rest);
    }
  }

  lemma {:induction false} SessionRead(buf: Bytes) returns (rest: Bytes)
    ensures Frames(buf, Drain(AtStart, buf).cmds, rest) && EndsOn(rest, Drain(AtStart, buf).end)
    decreases |buf|
  {
    var r := ParseOnce(AtStart, buf);
    if r.Ready? {
      FramedExactly(buf, r.cmd, r.rest);
      rest := SessionRead(r.rest);
      var tail := Drain(AtStart, r.rest).cmds;
      assert ([r.cmd] + tail)[1..] == tail;
    } else {
      rest := buf;
      EndsExactly(buf, Drain(AtStart, buf).end);
    }
  }

  lemma FirstCommand(buf: Bytes, cmds: seq<Command>, mid: Bytes, end: End)
    requires cmds != [] && ParseOnce(AtStart, buf) == Ready(cmds[0], mid)
    requires Drain(AtStart, mid) == Session(cmds[1..], end)
    ensures Drain(AtStart, buf) == Session(cmds, end)
  {
    assert [cmds[0]] + cmds[1..] == cmds;
  }

  lemma {:induction false} SessionSpelled(buf: Bytes, cmds: seq<Command>, rest: Bytes, end: End)
    requires Frames(buf, cmds, rest) && EndsOn(rest, end)
    ensures Drain(AtStart, buf) == Session(cmds, end)
    decreases |cmds|
  {
    if cmds == [] {
      EndsExactly(rest, end);
    } else {
      var mid :| Framed(buf, cmds[0], mid) && Frames(mid, cmds[1..], rest);
      FramedExactly(buf, cmds[0], mid);
      SessionSpelled(mid, cmds[1..], rest, end);
      FirstCommand(buf, cmds, mid, end);
    }
  }

  // A stream gives the commands `cmds` and the ending `end` if and only if it is frames of those commands
  // followed by bytes that are malformed, or panic, or can still become a frame.
  lemma SessionExactly(buf: Bytes, cmds: seq<Command>, end: End)
    ensures Drain(AtStart, buf) == Session(cmds, end) <==> exists rest :: Frames(buf, cmds, rest) && EndsOn(rest, end)
  {
    if Drain(AtStart, buf) == Session(cmds, end) {
      var rest := SessionRead(buf);
    }
    forall rest | Frames(buf, cmds, rest) && EndsOn(rest, end) ensures Drain(AtStart, buf) == Session(cmds, end) {
      SessionSpelled(buf, cmds, rest, end);
    }
  }
}
