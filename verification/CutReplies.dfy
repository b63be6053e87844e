/**
 Replies cut short. The client's read_line (hkv-client/src/resp.rs) checks the last byte but one of
 what it got and not the last, so at the end of a stream it can take an unterminated line for a
 complete one. This module says when that happens, which replies survive every cut as an error, and
 that all replies of the server are among them.
 */
module CutReplies {
  import opened Base
  import opened Decimal
  import opened Cache
  import opened ClientResp
  import opened Server
  import EndToEnd
  import ServerParser

  // ---------------------------------------------------------------------------------------
  // Lines.

  // A line taken off a stream was really terminated exactly when the stream has a line feed at all.
  lemma LineTerminatedExactlyWithLf(s: Bytes)
    requires TakeLine(s).Ok?
    ensures s == TakeLine(s).value + CRLF + TakeLine(s).rest <==> LF in s
  {
    var n := UntilLf(s);
    if LF in s {
      assert s[n - 1] == LF;
      assert s == s[..n - 2] + CRLF + s[n..];
    }
  }

  // Two streams that end without a line feed: one that no server meant, and a status reply that lost
  // its last four bytes and reads as another one.
  lemma UnterminatedLineReads()
    ensures ReadValue([PLUS, 79, 75, CR, 88]) == Ok(Simple([79, 75]), [])
    ensures Printable(Simple([79, CR, 75]))
    ensures ReadValue(Print(Simple([79, CR, 75]))[..4]) == Ok(Simple([79]), [])
  {
    NoLfTakesAll([PLUS, 79, 75, CR, 88]);
    assert [PLUS, 79, 75, CR, 88][..3] == [PLUS, 79, 75];
    assert [PLUS, 79, 75][1..] == [79, 75];
    CutAtCr(PLUS, [79, CR, 75], 1);
    assert [79, CR, 75][..1] == [79];
    assert ([PLUS] + [79])[1..] == [79];
  }

  lemma NoLfTakesAll(s: Bytes)
    requires LF !in s
    ensures UntilLf(s) == |s|
    ensures TakeLine(s) == if |s| < 2 || s[|s| - 2] != CR then Err(Protocol) else Ok(s[..|s| - 2], [])
  {
  }

  // A cut line reads as nothing, or uses up the stream; as nothing for sure if its text has no CR.
  lemma CutLine(text: Bytes, cut: nat)
    requires LF !in text && cut < |text| + 2
    ensures var r := TakeLine((text + CRLF)[..cut]);
            && (r.Ok? ==> r.rest == [] && r.value < text)
            && (CR !in text ==> r.Err?)
  {
    var s := (text + CRLF)[..cut];
    assert forall i :: 0 <= i < cut ==> s[i] == if i < |text| then text[i] else CR;
    NoLfTakesAll(s);
    if TakeLine(s).Ok? {
      assert s[cut - 2] == text[cut - 2];
      assert s[..cut - 2] == text[..cut - 2];
    }
  }

  // A line that begins with its kind and ends early.
  lemma CutAtCr(kind: byte, text: Bytes, i: nat)
    requires kind != LF && LF !in text && i < |text| && text[i] == CR
    ensures TakeLine(([kind] + text + CRLF)[..i + 3]) == Ok([kind] + text[..i], [])
  {
    var s := ([kind] + text + CRLF)[..i + 3];
    assert forall j :: 0 <= j < |s| ==> s[j] == if j == 0 then kind else if j - 1 < |text| then text[j - 1] else CR;
    NoLfTakesAll(s);
    assert s[..i + 1] == [kind] + text[..i];
  }

  // ---------------------------------------------------------------------------------------
  // Replies.

  // The replies of which no proper prefix reads as a reply: a status or error text without CR, any
  // integer or bulk string, an array that is empty or ends with such a reply.
  predicate CutSafe(v: RespValue) {
    match v
    case Simple(text) => CR !in text
    case Error(text) => CR !in text
    case Integer(_) => true
    case Bulk(_) => true
    case Array(items) => items == [] || CutSafe(items[|items| - 1])
  }

  // A cut reply reads as nothing or uses up the stream.
  predicate Stops<T(!new)>(r: Read<T>, safe: bool) {
    (r.Ok? ==> r.rest == []) && (safe ==> r.Err?)
  }

  lemma HeaderHasNoBreak(kind: byte, n: int)
    requires kind != LF && kind != CR
    ensures LF !in [kind] + Signed(n) && CR !in [kind] + Signed(n)
  {
  }

  // A prefix that ends inside the header line, or a whole header line and a cut body.
  lemma CutHeader(header: Bytes, body: Bytes, cut: nat)
    requires LF !in header && CR !in header && cut < |header| + 2 + |body|
    ensures cut < |header| + 2 ==> TakeLine((header + CRLF + body)[..cut]).Err?
    ensures cut >= |header| + 2 ==>
              TakeLine((header + CRLF + body)[..cut]) == Ok(header, body[..cut - |header| - 2])
  {
    var s := (header + CRLF + body)[..cut];
    if cut < |header| + 2 {
      CutLine(header, cut);
      assert s == (header + CRLF)[..cut];
    } else {
      TakeLineOf(header, body[..cut - |header| - 2]);
      assert s == header + CRLF + body[..cut - |header| - 2];
    }
  }

  lemma CutStatus(v: RespValue, cut: nat)
    requires (v.Simple? || v.Error?) && Printable(v) && cut < |Print(v)|
    ensures Stops(ReadValue(Print(v)[..cut]), CutSafe(v))
  {
    var kind := if v.Simple? then PLUS else DASH;
    assert Print(v) == [kind] + v.text + CRLF;
    CutLine([kind] + v.text, cut);
  }

  lemma CutNumber(kind: byte, n: int, cut: nat)
    requires kind == COLON || kind == DOLLAR
    requires cut < |[kind] + Signed(n) + CRLF|
    ensures ReadValue(([kind] + Signed(n) + CRLF)[..cut]).Err?
  {
    HeaderHasNoBreak(kind, n);
    CutLine([kind] + Signed(n), cut);
  }

  lemma CutBulk(data: Bytes, cut: nat)
    requires |data| <= I64_MAX && cut < |Print(Bulk(Some(data)))|
    ensures ReadValue(Print(Bulk(Some(data)))[..cut]).Err?
  {
    var header, body := [DOLLAR] + Signed(|data|), data + CRLF;
    assert Print(Bulk(Some(data))) == header + CRLF + body;
    HeaderHasNoBreak(DOLLAR, |data|);
    CutHeader(header, body, cut);
    if cut >= |header| + 2 {
      HeaderReads(DOLLAR, |data|, []);
      var s := body[..cut - |header| - 2];
      assert ReadValue(Print(Bulk(Some(data)))[..cut]) == ReadBulk(s, |data|);
      assert TakeExact(s, |data|).Ok? ==> |TakeExact(s, |data|).rest| < 2;
    }
  }

  // Any cut of any printable reply.
  lemma {:induction false} CutReply(v: RespValue, cut: nat)
    requires Printable(v) && cut < |Print(v)|
    ensures Stops(ReadValue(Print(v)[..cut]), CutSafe(v))
    decreases v, 0
  {
    match v
    case Simple(_) => CutStatus(v, cut);
    case Error(_) => CutStatus(v, cut);
    case Integer(n) => CutNumber(COLON, n, cut);
    case Bulk(None) => CutNumber(DOLLAR, -1, cut);
    case Bulk(Some(data)) => CutBulk(data, cut);
    case Array(items) =>
      var header, body := [STAR] + Signed(|items|), PrintAll(items);
      HeaderHasNoBreak(STAR, |items|);
      CutHeader(header, body, cut);
      if cut >= |header| + 2 {
        HeaderReads(STAR, |items|, []);
        CutItems(items, cut - |header| - 2);
        var s := body[..cut - |header| - 2];
        assert ReadValue(Print(v)[..cut]) == ReadArray(s, |items|);
      }
  }

  lemma {:induction false} CutItems(items: seq<RespValue>, cut: nat)
    requires forall i :: 0 <= i < |items| ==> Printable(items[i])
    requires cut < |PrintAll(items)|
    ensures Stops(ReadItems(PrintAll(items)[..cut], |items|), CutSafe(items[|items| - 1]))
    decreases items, 1
  {
    var first, rest := Print(items[0]), PrintAll(items[1..]);
    var s := (first + rest)[..cut];
    if |items| == 1 {
      assert items[1..] == [];
    }
    if cut < |first| {
      assert s == first[..cut];
      CutReply(items[0], cut);
      if |items| > 1 {
        assert ReadItems([], |items| - 1).Err?;
      }
    } else {
      assert s == first + rest[..cut - |first|];
      PrintedReadsBack(items[0], rest[..cut - |first|]);
      CutItems(items[1..], cut - |first|);
    }
  }

  // A reply that is not safe has a cut that reads as another reply.
  lemma {:induction false} UnsafeCut(v: RespValue) returns (cut: nat)
    requires Printable(v) && !CutSafe(v)
    ensures cut < |Print(v)| && ReadValue(Print(v)[..cut]).Ok? && ReadValue(Print(v)[..cut]).value != v
    decreases v, 0
  {
    if v.Array? {
      var items := v.items;
      var c := UnsafeItemsCut(items);
      var header, body := [STAR] + Signed(|items|), PrintAll(items);
      cut := |header| + 2 + c;
      HeaderHasNoBreak(STAR, |items|);
      CutHeader(header, body, cut);
      HeaderReads(STAR, |items|, []);
      assert ReadValue(Print(v)[..cut]) == ReadArray(body[..c], |items|);
    } else {
      cut := UnsafeStatusCut(v);
    }
  }

  lemma UnsafeStatusCut(v: RespValue) returns (cut: nat)
    requires (v.Simple? || v.Error?) && Printable(v) && !CutSafe(v)
    ensures cut < |Print(v)| && ReadValue(Print(v)[..cut]).Ok? && ReadValue(Print(v)[..cut]).value != v
  {
    var i :| 0 <= i < |v.text| && v.text[i] == CR;
    cut := i + 3;
    var kind := if v.Simple? then PLUS else DASH;
    assert Print(v) == [kind] + v.text + CRLF;
    CutAtCr(kind, v.text, i);
    assert ([kind] + v.text[..i])[1..] == v.text[..i];
  }

  lemma {:induction false} UnsafeItemsCut(items: seq<RespValue>) returns (cut: nat)
    requires forall i :: 0 <= i < |items| ==> Printable(items[i])
    requires items != [] && !CutSafe(items[|items| - 1])
    ensures cut < |PrintAll(items)|
    ensures var r := ReadItems(PrintAll(items)[..cut], |items|); r.Ok? && r.value != items
    decreases items, 1
  {
    var first, rest := Print(items[0]), PrintAll(items[1..]);
    if |items| == 1 {
      cut := UnsafeCut(items[0]);
      assert rest == [] && (first + rest)[..cut] == first[..cut];
      CutReply(items[0], cut);
    } else {
      var c := UnsafeItemsCut(items[1..]);
      cut := |first| + c;
      assert (first + rest)[..cut] == first + rest[..c];
      PrintedReadsBack(items[0], rest[..c]);
      var tail := ReadItems(rest[..c], |items| - 1);
      assert ([items[0]] + tail.value)[1..] == tail.value;
    }
  }

  // Losing the connection in the middle of a reply is an error at every cut exactly for these replies.
  lemma CutsFailExactlyWhenSafe(v: RespValue)
    requires Printable(v)
    ensures (forall cut :: 0 <= cut < |Print(v)| ==> ReadValue(Print(v)[..cut]).Err?) <==> CutSafe(v)
  {
    if CutSafe(v) {
      forall cut | 0 <= cut < |Print(v)| ensures ReadValue(Print(v)[..cut]).Err? {
        CutReply(v, cut);
      }
    } else {
      var cut := UnsafeCut(v);
    }
  }

  // ---------------------------------------------------------------------------------------
  // The server's replies.

  predicate NoCr(s: string) {
    forall i :: 0 <= i < |s| ==> s[i] as int % 256 != 13
  }

  lemma ErrCutSafe(message: string)
    requires NoCr(message)
    ensures CutSafe(ErrReply(message))
  {
    assert NoCr("ERR ");
  }

  lemma ArityCutSafe(command: string)
    requires NoCr(command)
    ensures CutSafe(WrongArity(command))
  {
    assert NoCr("wrong number of arguments for ");
    ErrCutSafe("wrong number of arguments for " + command);
  }

  lemma OkCutSafe()
    ensures CutSafe(Simple(Ascii("OK")))
  {
    assert NoCr("OK");
  }

  lemma InvalidIntegerCutSafe()
    ensures CutSafe(ErrReply("invalid integer"))
  {
    ErrCutSafe("invalid integer");
  }

  lemma UnsupportedCutSafe()
    ensures CutSafe(ErrReply("unsupported SET options"))
  {
    ErrCutSafe("unsupported SET options");
  }

  lemma EngineErrorCutSafe()
    ensures CutSafe(ErrReply("engine error"))
  {
    ErrCutSafe("engine error");
  }

  lemma SetExCutSafe(cfg: Config, c: Cache, key: Bytes, value: Bytes, seconds: nat, clock: Clock)
    requires WellFormed(cfg, c)
    ensures var r := SetEx(cfg, c, key, value, seconds, clock); r.Replied? ==> CutSafe(r.reply)
  {
    OkCutSafe();
    EngineErrorCutSafe();
  }

  lemma SetCutSafe(cfg: Config, c: Cache, args: seq<Bytes>, clock: Clock)
    requires WellFormed(cfg, c)
    ensures HandleSet(cfg, c, args, clock).Replied? ==> CutSafe(HandleSet(cfg, c, args, clock).reply)
  {
    if |args| < 3 {
      ArityCutSafe("SET");
    } else if |args| == 3 {
      OkCutSafe();
    } else if |args| == 5 && EqIgnoreAsciiCase(args[3], EX) {
      match Unsigned(args[4], USIZE_MAX) {
        case None => InvalidIntegerCutSafe();
        case Some(seconds) => SetExCutSafe(cfg, c, args[1], args[2], seconds, clock);
      }
    } else {
      UnsupportedCutSafe();
    }
  }

  lemma ExpireCutSafe(cfg: Config, c: Cache, args: seq<Bytes>, clock: Clock)
    requires WellFormed(cfg, c)
    ensures HandleExpire(cfg, c, args, clock).Replied? ==> CutSafe(HandleExpire(cfg, c, args, clock).reply)
  {
    ArityCutSafe("EXPIRE");
    InvalidIntegerCutSafe();
  }

  lemma PingCutSafe(args: seq<Bytes>)
    ensures CutSafe(HandlePing(args))
  {
    assert NoCr("PONG");
    ArityCutSafe("PING");
  }

  lemma DispatchCutSafe(cfg: Config, c: Cache, args: seq<Bytes>, clock: Clock, info: Bytes)
    requires WellFormed(cfg, c)
    ensures Dispatch(cfg, c, args, clock, info).Replied? ==> CutSafe(Dispatch(cfg, c, args, clock, info).reply)
  {
    if args == [] {
      ErrCutSafe("empty command");
    } else if EqIgnoreAsciiCase(args[0], PING) {
      PingCutSafe(args);
    } else if EqIgnoreAsciiCase(args[0], GET) {
      ArityCutSafe("GET");
    } else if EqIgnoreAsciiCase(args[0], SET) {
      SetCutSafe(cfg, c, args, clock);
    } else if EqIgnoreAsciiCase(args[0], DEL) {
      ArityCutSafe("DEL");
    } else if EqIgnoreAsciiCase(args[0], EXPIRE) {
      ExpireCutSafe(cfg, c, args, clock);
    } else if EqIgnoreAsciiCase(args[0], TTL) {
      ArityCutSafe("TTL");
    } else {
      ErrCutSafe("unknown command");
    }
  }

  // Whatever the command and the state, a server reply that does not arrive whole is an error to the
  // client, never a different reply.
  lemma TruncatedServerReplyIsError(
      cfg: Config, c: Cache, args: seq<Bytes>, clock: Clock, info: Bytes, cut: nat)
    requires WellFormed(cfg, c) && AllResident(c) && FitsArgs(args) && |info| <= ISIZE_MAX
    requires var r := Dispatch(cfg, c, args, clock, info); r.Replied? && cut < |Print(r.reply)|
    ensures ReadValue(Print(Dispatch(cfg, c, args, clock, info).reply)[..cut]).Err?
  {
    DispatchPrintable(cfg, c, args, clock, info);
    DispatchCutSafe(cfg, c, args, clock, info);
    CutReply(Dispatch(cfg, c, args, clock, info).reply, cut);
  }

  lemma {:induction false} RespondCutSafe(
      cfg: Config, c: Cache, cmds: seq<seq<Bytes>>, clocks: nat -> Clock, k: nat, infos: nat -> Bytes)
    requires WellFormed(cfg, c)
    ensures forall v :: v in EndToEnd.Respond(cfg, c, cmds, clocks, k, infos).replies ==> CutSafe(v)
    decreases |cmds|
  {
    if cmds != [] {
      DispatchCutSafe(cfg, c, cmds[0], clocks(k), infos(k));
      var o := Dispatch(cfg, c, cmds[0], clocks(k), infos(k));
      if o.Replied? {
        RespondCutSafe(cfg, o.cache, cmds[1..], clocks, k + 1, infos);
      }
    }
  }

  lemma WrittenCutSafe(cfg: Config, c: Cache, chunks: seq<Bytes>, clocks: nat -> Clock, infos: nat -> Bytes)
    requires WellFormed(cfg, c)
    ensures forall v :: v in EndToEnd.Written(cfg, c, chunks, clocks, infos) ==> CutSafe(v)
  {
    RespondCutSafe(cfg, c, ServerParser.Feed(ServerParser.AtStart, [], chunks).cmds, clocks, 0, infos);
    ErrCutSafe("protocol error");
  }

  lemma CutSafeItems(items: seq<RespValue>, cut: nat)
    requires forall i :: 0 <= i < |items| ==> Printable(items[i])
    requires forall v :: v in items ==> CutSafe(v)
    requires cut < |PrintAll(items)|
    ensures ReadItems(PrintAll(items)[..cut], |items|).Err?
  {
    assert items[|items| - 1] in items;
    CutItems(items, cut);
  }

  // The same for a whole connection: cut anywhere, what the server wrote does not read as its replies
  // or as any others in their number.
  lemma TruncatedStreamIsError(
      cfg: Config, c: Cache, chunks: seq<Bytes>, clocks: nat -> Clock, infos: nat -> Bytes, cut: nat)
    requires WellFormed(cfg, c) && AllResident(c) && EndToEnd.InfosFit(infos)
    requires var cmds := ServerParser.Drain(ServerParser.AtStart, Concat(chunks)).cmds;
             forall i :: 0 <= i < |cmds| ==> FitsArgs(cmds[i])
    requires cut < |PrintAll(EndToEnd.Written(cfg, c, chunks, clocks, infos))|
    ensures var replies := EndToEnd.Written(cfg, c, chunks, clocks, infos);
            ReadItems(PrintAll(replies)[..cut], |replies|).Err?
  {
    var replies := EndToEnd.Written(cfg, c, chunks, clocks, infos);
    EndToEnd.WrittenPrintable(cfg, c, chunks, clocks, infos);
    WrittenCutSafe(cfg, c, chunks, clocks, infos);
    CutSafeItems(replies, cut);
  }
}
