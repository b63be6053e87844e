/**
 The client's half of RESP2 (hkv-client/src/resp.rs): the command printer and the recursive reply
 reader, together with the reply printer they have to agree with.
 */
module ClientResp {
  import opened Base
  import opened Decimal
  import ServerParser

  const PLUS: byte := 43
  const DASH: byte := 45
  const COLON: byte := 58

  // ---------------------------------------------------------------------------------------
  // Commands.

  function EncodeArgs(args: seq<Bytes>): Bytes {
    if args == [] then []
    else [DOLLAR] + Digits(|args[0]|) + CRLF + args[0] + CRLF + EncodeArgs(args[1..])
  }

  function Encode(args: seq<Bytes>): Bytes {
    [STAR] + Digits(|args|) + CRLF + EncodeArgs(args)
  }

  lemma {:induction false} EncodeArgsSnoc(args: seq<Bytes>, arg: Bytes)
    ensures EncodeArgs(args + [arg]) == EncodeArgs(args) + ([DOLLAR] + Digits(|arg|) + CRLF + arg + CRLF)
  {
    if args == [] {
      assert [arg][1..] == [];
    } else {
      assert (args + [arg])[1..] == args[1..] + [arg];
      EncodeArgsSnoc(args[1..], arg);
      Assoc([DOLLAR] + Digits(|args[0]|) + CRLF + args[0] + CRLF, EncodeArgs(args[1..]),
            [DOLLAR] + Digits(|arg|) + CRLF + arg + CRLF);
    }
  }

  // Rust slices and vectors never exceed ISIZE_MAX elements.
  predicate FitsArgs(args: seq<Bytes>) {
    |args| <= ISIZE_MAX && forall i :: 0 <= i < |args| ==> |args[i]| <= ISIZE_MAX
  }

  method EncodeCommand(args: seq<Bytes>, out: Bytes) returns (r: Bytes)
    requires FitsArgs(args)
    ensures r == out + Encode(args)
  {
    r := out + [STAR];
    r := PushUsize(r, |args|);
    r := r + CRLF;
    ghost var header := r;
    assert header == out + ([STAR] + Digits(|args|) + CRLF);
    for i := 0 to |args|
      invariant r == header + EncodeArgs(args[..i])
    {
      ghost var before := r;
      r := r + [DOLLAR];
      r := PushUsize(r, |args[i]|);
      r := r + CRLF;
      r := r + args[i];
      r := r + CRLF;
      assert r == before + ([DOLLAR] + Digits(|args[i]|) + CRLF + args[i] + CRLF);
      assert args[..i + 1] == args[..i] + [args[i]];
      EncodeArgsSnoc(args[..i], args[i]);
      Assoc(header, EncodeArgs(args[..i]), [DOLLAR] + Digits(|args[i]|) + CRLF + args[i] + CRLF);
    }
    assert args[..|args|] == args;
    Assoc(out, [STAR] + Digits(|args|) + CRLF, EncodeArgs(args));
  }

  function Numerals(args: seq<Bytes>): (r: seq<Bytes>)
    ensures |r| == |args|
  {
    if args == [] then [] else [Digits(|args[0]|)] + Numerals(args[1..])
  }

  lemma {:induction false} EncodeArgsIsBulks(args: seq<Bytes>)
    requires FitsArgs(args)
    ensures ServerParser.SpellsArgs(Numerals(args), args)
    ensures EncodeArgs(args) == ServerParser.Bulks(Numerals(args), args)
  {
    if args != [] {
      EncodeArgsIsBulks(args[1..]);
      UnsignedRoundTrip(|args[0]|, USIZE_MAX);
      assert Numerals(args)[1..] == Numerals(args[1..]);
    }
  }

  // The client only ever sends frames of the grammar the server accepts.
  lemma EncodeIsFrame(args: seq<Bytes>)
    requires FitsArgs(args)
    ensures ServerParser.SpellsFrame(Digits(|args|), Numerals(args), args)
    ensures Encode(args) == ServerParser.Frame(Digits(|args|), Numerals(args), args)
  {
    EncodeArgsIsBulks(args);
    UnsignedRoundTrip(|args|, USIZE_MAX);
  }

  function EncodeAll(cmds: seq<seq<Bytes>>): Bytes {
    if cmds == [] then [] else Encode(cmds[0]) + EncodeAll(cmds[1..])
  }

  // A pipeline of any commands, with any bytes behind it, is parsed back to exactly those commands
  // and leaves the rest of the stream to be parsed as if it stood alone.
  lemma {:induction false} PipelineRoundTrip(cmds: seq<seq<Bytes>>, rest: Bytes)
    requires forall i :: 0 <= i < |cmds| ==> FitsArgs(cmds[i])
    ensures ServerParser.Drain(ServerParser.AtStart, EncodeAll(cmds) + rest)
         == ServerParser.Prepend(cmds, ServerParser.Drain(ServerParser.AtStart, rest))
  {
    if cmds == [] {
      assert [] + rest == rest;
      assert [] + ServerParser.Drain(ServerParser.AtStart, rest).cmds ==
          ServerParser.Drain(ServerParser.AtStart, rest).cmds;
    } else {
      var tail := EncodeAll(cmds[1..]) + rest;
      Assoc(Encode(cmds[0]), EncodeAll(cmds[1..]), rest);
      EncodeIsFrame(cmds[0]);
      ServerParser.FrameParses(Digits(|cmds[0]|), Numerals(cmds[0]), cmds[0], tail);
      PipelineRoundTrip(cmds[1..], rest);
      Assoc([cmds[0]], cmds[1..], ServerParser.Drain(ServerParser.AtStart, rest).cmds);
      assert [cmds[0]] + cmds[1..] == cmds;
    }
  }

  // However the pipeline is cut into reads, the server sees the same commands and ends up waiting
  // for a new one with an empty buffer.
  lemma PipelineSurvivesChunking(cmds: seq<seq<Bytes>>, chunks: seq<Bytes>)
    requires forall i :: 0 <= i < |cmds| ==> FitsArgs(cmds[i])
    requires Concat(chunks) == EncodeAll(cmds)
    ensures ServerParser.Feed(ServerParser.AtStart, [], chunks)
         == ServerParser.Session(cmds, ServerParser.Waiting(ServerParser.AtStart, []))
  {
    ServerParser.ChunkingIrrelevant(ServerParser.AtStart, [], chunks);
    assert [] + Concat(chunks) == EncodeAll(cmds) + [];
    PipelineRoundTrip(cmds, []);
    assert cmds + [] == cmds;
  }

  // A command cut anywhere short of its end is neither a command nor an error.
  lemma CutCommandWaits(args: seq<Bytes>, cut: nat)
    requires FitsArgs(args) && cut < |Encode(args)|
    ensures ServerParser.Drain(ServerParser.AtStart, Encode(args)[..cut]).cmds == []
    ensures ServerParser.Drain(ServerParser.AtStart, Encode(args)[..cut]).end.Waiting?
  {
    EncodeIsFrame(args);
    ServerParser.ProperPrefixWaits(Digits(|args|), Numerals(args), args, cut);
  }

  // ---------------------------------------------------------------------------------------
  // Replies.

  datatype RespValue =
    | Simple(text: Bytes)
    | Error(text: Bytes)
    | Integer(n: int)
    | Bulk(data: Option<Bytes>)
    | Array(items: seq<RespValue>)

  // The reply printers of the server, extended to arrays as RESP2 writes them.
  function Print(v: RespValue): Bytes
    decreases v, 0
  {
    match v
    case Simple(text) => [PLUS] + text + CRLF
    case Error(text) => [DASH] + text + CRLF
    case Integer(n) => [COLON] + Signed(n) + CRLF
    case Bulk(None) => [DOLLAR] + Signed(-1) + CRLF
    case Bulk(Some(data)) => [DOLLAR] + Signed(|data|) + CRLF + data + CRLF
    case Array(items) => [STAR] + Signed(|items|) + CRLF + PrintAll(items)
  }

  function PrintAll(items: seq<RespValue>): Bytes
    decreases items, 1
  {
    if items == [] then [] else Print(items[0]) + PrintAll(items[1..])
  }

  datatype ReadError = Protocol | Io

  datatype Read<+T> = Ok(value: T, rest: Bytes) | Err(error: ReadError)

  // Bytes up to and including the first LF, or the whole stream when it has none.
  function UntilLf(s: Bytes): (n: nat)
    ensures n <= |s|
    ensures forall i :: 0 <= i < n - 1 ==> s[i] != LF
    ensures n == |s| || (n > 0 && s[n - 1] == LF)
    ensures s != [] ==> n > 0
  {
    if s == [] then 0 else if s[0] == LF then 1 else 1 + UntilLf(s[1..])
  }

  // read_line: only the byte before the last one is checked, so that at end of file the last byte
  // of an unterminated line goes unnoticed.
  function TakeLine(s: Bytes): (r: Read<Bytes>)
    ensures r.Ok? ==> |r.value| + 2 + |r.rest| == |s|
  {
    var n := UntilLf(s);
    if n < 2 || s[n - 2] != CR then Err(Protocol) else Ok(s[..n - 2], s[n..])
  }

  function TakeExact(s: Bytes, n: nat): (r: Read<Bytes>)
    ensures r.Ok? ==> |r.value| == n && s == r.value + r.rest
  {
    if |s| < n then Err(Io) else Ok(s[..n], s[n..])
  }

  function ReadValue(s: Bytes): (r: Read<RespValue>)
    ensures r.Ok? ==> |r.rest| < |s|
    decreases |s|, 0
  {
    match TakeLine(s)
    case Err(e) => Err(e)
    case Ok(line, rest) => ReadAfter(line, rest)
  }

  function ReadAfter(line: Bytes, rest: Bytes): (r: Read<RespValue>)
    ensures r.Ok? ==> |r.rest| <= |rest|
    decreases |rest|, 3
  {
    if line == [] then Err(Protocol)
    else if line[0] == PLUS then Ok(Simple(line[1..]), rest)
    else if line[0] == DASH then Ok(Error(line[1..]), rest)
    else if line[0] != COLON && line[0] != DOLLAR && line[0] != STAR then Err(Protocol)
    else
      match SignedValue(line[1..])
      case None => Err(Protocol)
      case Some(n) =>
        if line[0] == COLON then Ok(Integer(n), rest)
        else if line[0] == DOLLAR then ReadBulk(rest, n)
        else ReadArray(rest, n)
  }

  function ReadBulk(s: Bytes, len: int): (r: Read<RespValue>)
    ensures r.Ok? ==> |r.rest| <= |s|
  {
    if len < 0 then Ok(Bulk(None), s)
    else
      match TakeExact(s, len)
      case Err(e) => Err(e)
      case Ok(data, rest) =>
        match TakeExact(rest, 2)
        case Err(e) => Err(e)
        case Ok(crlf, rest') => if crlf == CRLF then Ok(Bulk(Some(data)), rest') else Err(Protocol)
  }

  function ReadArray(s: Bytes, len: int): (r: Read<RespValue>)
    ensures r.Ok? ==> |r.rest| <= |s|
    decreases |s|, 2
  {
    if len <= 0 then Ok(Array([]), s)
    else
      match ReadItems(s, len)
      case Err(e) => Err(e)
      case Ok(items, rest) => Ok(Array(items), rest)
  }

  function ReadItems(s: Bytes, n: nat): (r: Read<seq<RespValue>>)
    ensures r.Ok? ==> |r.rest| <= |s|
    decreases |s|, 1
  {
    if n == 0 then Ok([], s)
    else
      match ReadValue(s)
      case Err(e) => Err(e)
      case Ok(v, rest) =>
        match ReadItems(rest, n - 1)
        case Err(e) => Err(e)
        case Ok(vs, rest') => Ok([v] + vs, rest')
  }

  // Replies that survive printing: status and error texts on one line, integers above the i64
  // minimum, lengths a Rust buffer can have.
  ghost predicate Printable(v: RespValue) {
    match v
    case Simple(text) => LF !in text
    case Error(text) => LF !in text
    case Integer(n) => -I64_MAX <= n <= I64_MAX
    case Bulk(None) => true
    case Bulk(Some(data)) => |data| <= I64_MAX
    case Array(items) => |items| <= I64_MAX && forall i :: 0 <= i < |items| ==> Printable(items[i])
  }

  lemma {:induction false} UntilLfAt(text: Bytes, rest: Bytes)
    requires LF !in text
    ensures UntilLf(text + [LF] + rest) == |text| + 1
  {
    if text != [] {
      assert (text + [LF] + rest)[1..] == text[1..] + [LF] + rest;
      UntilLfAt(text[1..], rest);
    }
  }

  lemma TakeLineOf(text: Bytes, rest: Bytes)
    requires LF !in text
    ensures TakeLine(text + CRLF + rest) == Ok(text, rest)
  {
    var s := text + CRLF + rest;
    assert s == (text + [CR]) + [LF] + rest;
    UntilLfAt(text + [CR], rest);
    assert s[..|text|] == text && s[|text| + 2..] == rest;
  }

  lemma SignedHasNoLf(i: int)
    ensures LF !in Signed(i)
  {
  }

  // A header line whose number fits is read back exactly.
  lemma HeaderReads(kind: byte, n: int, rest: Bytes)
    requires kind != LF && -I64_MAX - 1 <= n <= I64_MAX
    ensures TakeLine([kind] + Signed(n) + CRLF + rest) == Ok([kind] + Signed(n), rest)
    ensures SignedValue(([kind] + Signed(n))[1..]) == Some(if n == -I64_MAX - 1 then -I64_MAX else n)
  {
    SignedHasNoLf(n);
    TakeLineOf([kind] + Signed(n), rest);
    assert ([kind] + Signed(n))[1..] == Signed(n);
    SignedRoundTrip(n);
  }

  lemma BulkReads(data: Bytes, rest: Bytes)
    ensures ReadBulk(data + CRLF + rest, |data|) == Ok(Bulk(Some(data)), rest)
  {
    var s := data + CRLF + rest;
    assert s[..|data|] == data && s[|data|..] == CRLF + rest;
    assert (CRLF + rest)[..2] == CRLF && (CRLF + rest)[2..] == rest;
  }

  lemma LineReplyReads(kind: byte, text: Bytes, rest: Bytes)
    requires LF !in text && kind != LF
    ensures TakeLine([kind] + text + CRLF + rest) == Ok([kind] + text, rest)
    ensures ([kind] + text)[1..] == text
  {
    TakeLineOf([kind] + text, rest);
  }

  lemma PrintedBulkReadsBack(data: Bytes, rest: Bytes)
    requires |data| <= I64_MAX
    ensures ReadValue(Print(Bulk(Some(data))) + rest) == Ok(Bulk(Some(data)), rest)
  {
    var tail := data + CRLF + rest;
    assert Print(Bulk(Some(data))) + rest == [DOLLAR] + Signed(|data|) + CRLF + tail;
    HeaderReads(DOLLAR, |data|, tail);
    BulkReads(data, rest);
  }

  lemma PrintedLeafReadsBack(v: RespValue, rest: Bytes)
    requires Printable(v) && !v.Array?
    ensures ReadValue(Print(v) + rest) == Ok(v, rest)
  {
    match v
    case Simple(text) => LineReplyReads(PLUS, text, rest);
    case Error(text) => LineReplyReads(DASH, text, rest);
    case Integer(n) => HeaderReads(COLON, n, rest);
    case Bulk(None) => HeaderReads(DOLLAR, -1, rest);
    case Bulk(Some(data)) => PrintedBulkReadsBack(data, rest);
  }

  // Every printable reply, nested arrays included, is decoded to itself and exactly its bytes are
  // consumed.
  lemma {:induction false} PrintedReadsBack(v: RespValue, rest: Bytes)
    requires Printable(v)
    ensures ReadValue(Print(v) + rest) == Ok(v, rest)
    decreases v, 0
  {
    match v
    case Array(items) =>
      var tail := PrintAll(items) + rest;
      Assoc([STAR] + Signed(|items|) + CRLF, PrintAll(items), rest);
      HeaderReads(STAR, |items|, tail);
      PrintedItemsReadBack(items, rest);
      assert ReadArray(tail, |items|) == Ok(v, rest);
    case _ => PrintedLeafReadsBack(v, rest);
  }

  lemma {:induction false} PrintedItemsReadBack(items: seq<RespValue>, rest: Bytes)
    requires forall i :: 0 <= i < |items| ==> Printable(items[i])
    ensures ReadItems(PrintAll(items) + rest, |items|) == Ok(items, rest)
    decreases items, 1
  {
    if items == [] {
      assert [] + rest == rest;
    } else {
      Assoc(Print(items[0]), PrintAll(items[1..]), rest);
      var tail := PrintAll(items[1..]) + rest;
      PrintedReadsBack(items[0], tail);
      PrintedItemsReadBack(items[1..], rest);
      assert [items[0]] + items[1..] == items;
    }
  }

  // Whatever the stream, the reader only ever returns printable values.
  lemma {:induction false} ReadIsPrintable(s: Bytes)
    requires ReadValue(s).Ok?
    ensures Printable(ReadValue(s).value)
    decreases |s|, 0
  {
    var line, rest := TakeLine(s).value, TakeLine(s).rest;
    assert ReadValue(s) == ReadAfter(line, rest);
    assert LF !in line[1..];
    if line[0] == STAR {
      var n := SignedValue(line[1..]).value;
      assert ReadAfter(line, rest) == ReadArray(rest, n);
      if n > 0 {
        ReadItemsArePrintable(rest, n);
      }
    }
  }

  lemma {:induction false} ReadItemsArePrintable(s: Bytes, n: nat)
    requires ReadItems(s, n).Ok?
    ensures |ReadItems(s, n).value| == n
    ensures forall v :: v in ReadItems(s, n).value ==> Printable(v)
    decreases |s|, 1
  {
    if n > 0 {
      ReadIsPrintable(s);
      ReadItemsArePrintable(ReadValue(s).rest, n - 1);
    }
  }

  // So a reply survives the wire if and only if it is printable.
  lemma RepliesSurviveExactlyWhenPrintable(v: RespValue, rest: Bytes)
    ensures ReadValue(Print(v) + rest) == Ok(v, rest) <==> Printable(v)
  {
    if Printable(v) {
      PrintedReadsBack(v, rest);
    } else if ReadValue(Print(v) + rest) == Ok(v, rest) {
      ReadIsPrintable(Print(v) + rest);
    }
  }

  // The one i64 that does not survive.
  lemma MinimumReadsAsMinusMaximum(rest: Bytes)
    ensures ReadValue(Print(Integer(-I64_MAX - 1)) + rest) == Ok(Integer(-I64_MAX), rest)
  {
    HeaderReads(COLON, -I64_MAX - 1, rest);
  }

  // ---------------------------------------------------------------------------------------
  // The code.

  // The buffered socket, as the bytes the server will have sent.
  class Reader {
    var stream: Bytes
  }

  method ReadLine(reader: Reader) returns (r: Option<Bytes>)
    modifies reader
    ensures match TakeLine(old(reader.stream))
            case Ok(line, rest) => r == Some(line) && reader.stream == rest
            case Err(_) => r == None
  {
    var n := UntilLf(reader.stream);
    var line := reader.stream[..n];
    reader.stream := reader.stream[n..];
    if n == 0 {
      return None;
    }
    if |line| < 2 || line[|line| - 2] != CR {
      return None;
    }
    assert line[..|line| - 2] == old(reader.stream)[..n - 2];
    r := Some(line[..|line| - 2]);
  }

  method ReadExact(reader: Reader, n: nat) returns (r: Option<Bytes>)
    modifies reader
    ensures match TakeExact(old(reader.stream), n)
            case Ok(data, rest) => r == Some(data) && reader.stream == rest
            case Err(_) => r == None
  {
    if |reader.stream| < n {
      return None;
    }
    r := Some(reader.stream[..n]);
    reader.stream := reader.stream[n..];
  }

  datatype Response = Reply(value: RespValue) | ReadFailed(error: ReadError)

  predicate Delivers(spec: Read<RespValue>, r: Response, left: Bytes) {
    match spec
    case Ok(v, rest) => r == Reply(v) && left == rest
    case Err(e) => r == ReadFailed(e)
  }

  // read_response. Nested arrays recurse; the remaining stream bounds the recursion.
  method ReadResponse(reader: Reader) returns (r: Response)
    modifies reader
    ensures Delivers(ReadValue(old(reader.stream)), r, reader.stream)
    decreases |reader.stream|, 0
  {
    var line := ReadLine(reader);
    if line == None || line.value == [] {
      return ReadFailed(Protocol);
    }
    var kind, body := line.value[0], line.value[1..];
    if kind == PLUS {
      return Reply(Simple(body));
    }
    if kind == DASH {
      return Reply(Error(body));
    }
    if kind != COLON && kind != DOLLAR && kind != STAR {
      return ReadFailed(Protocol);
    }
    var n := ParseI64(body);
    if n == None {
      return ReadFailed(Protocol);
    }
    if kind == COLON {
      return Reply(Integer(n.value));
    }
    if kind == DOLLAR {
      r := ParseBulkLen(reader, n.value);
    } else {
      r := ParseArrayLen(reader, n.value);
    }
  }

  method ParseBulkLen(reader: Reader, len: int) returns (r: Response)
    modifies reader
    ensures Delivers(ReadBulk(old(reader.stream), len), r, reader.stream)
  {
    if len < 0 {
      return Reply(Bulk(None));
    }
    var data := ReadExact(reader, len);
    if data == None {
      return ReadFailed(Io);
    }
    var crlf := ReadExact(reader, 2);
    if crlf == None {
      return ReadFailed(Io);
    }
    if crlf.value != CRLF {
      return ReadFailed(Protocol);
    }
    r := Reply(Bulk(data));
  }

  lemma {:induction false} ReadItemsPrefix(items: seq<RespValue>, s: Bytes, n: nat)
    ensures ReadThen(items, s, n) == if n == 0 then Ok(items, s)
                                     else match ReadValue(s)
                                          case Err(e) => Err(e)
                                          case Ok(v, rest) => ReadThen(items + [v], rest, n - 1)
  {
    if n == 0 {
      assert items + [] == items;
    } else if ReadValue(s).Ok? {
      var rest := ReadItems(ReadValue(s).rest, n - 1);
      if rest.Ok? {
        Assoc(items, [ReadValue(s).value], rest.value);
      }
    }
  }

  // `items` already read, `n` to go.
  function ReadThen(items: seq<RespValue>, s: Bytes, n: nat): Read<seq<RespValue>> {
    match ReadItems(s, n)
    case Err(e) => Err(e)
    case Ok(more, rest) => Ok(items + more, rest)
  }

  method ParseArrayLen(reader: Reader, len: int) returns (r: Response)
    modifies reader
    ensures Delivers(ReadArray(old(reader.stream), len), r, reader.stream)
    decreases |reader.stream|, 1
  {
    if len <= 0 {
      return Reply(Array([]));
    }
    var items := [];
    assert forall vs: seq<RespValue> :: [] + vs == vs;
    for i := 0 to len
      invariant |reader.stream| <= old(|reader.stream|)
      invariant ReadThen(items, reader.stream, len - i) == ReadThen([], old(reader.stream), len)
    {
      ReadItemsPrefix(items, reader.stream, len - i);
      var item := ReadResponse(reader);
      if item.ReadFailed? {
        return item;
      }
      items := items + [item.value];
    }
    ReadItemsPrefix(items, reader.stream, 0);
    r := Reply(Array(items));
  }
}
