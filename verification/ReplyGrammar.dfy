/**
 What the client's reply reader (hkv-client/src/resp.rs) accepts, stated as a grammar: a stream reads as a
 value exactly when it spells that value, and everything else is an error. Numbers may carry leading zeros
 and saturate; a line at the very end of a stream may lack its line feed.
 */
module ReplyGrammar {
  import opened Base
  import opened Decimal
  import opened ClientResp

  // ---------------------------------------------------------------------------------------
  // Lines.

  // `s` is the line `text` and then `rest`, or it ends in CR and one more byte that is no line feed.
  ghost predicate LineOf(s: Bytes, text: Bytes, rest: Bytes) {
    LF !in text && (s == text + CRLF + rest || (rest == [] && exists b: byte :: b != LF && s == text + [CR, b]))
  }

  lemma {:induction false} UntilLfAll(s: Bytes)
    requires LF !in s
    ensures UntilLf(s) == |s|
  {
    if s != [] {
      UntilLfAll(s[1..]);
    }
  }

  lemma LineReads(s: Bytes, text: Bytes, rest: Bytes)
    requires LineOf(s, text, rest)
    ensures TakeLine(s) == Ok(text, rest)
  {
    if s == text + CRLF + rest {
      TakeLineOf(text, rest);
    } else {
      var b: byte :| b != LF && s == text + [CR, b];
      UntilLfAll(s);
      assert s[..|s| - 2] == text && s[|s|..] == [];
    }
  }

  lemma LineRead(s: Bytes)
    requires TakeLine(s).Ok?
    ensures LineOf(s, TakeLine(s).value, TakeLine(s).rest)
  {
    var n := UntilLf(s);
    var text, rest := s[..n - 2], s[n..];
    assert s == text + [s[n - 2], s[n - 1]] + rest;
    if s[n - 1] == LF {
      assert s == text + CRLF + rest;
    } else {
      assert rest == [] && s == text + [CR, s[n - 1]];
    }
  }

  lemma LinesExactly(s: Bytes, text: Bytes, rest: Bytes)
    ensures TakeLine(s) == Ok(text, rest) <==> LineOf(s, text, rest)
  {
    if TakeLine(s) == Ok(text, rest) {
      LineRead(s);
    }
    if LineOf(s, text, rest) {
      LineReads(s, text, rest);
    }
  }

  // ---------------------------------------------------------------------------------------
  // Values.

  // A header line of the kind with the number `n`, and `body` behind it.
  ghost predicate HeaderOf(s: Bytes, kind: byte, n: int, body: Bytes) {
    exists numeral :: SignedValue(numeral) == Some(n) && LineOf(s, [kind] + numeral, body)
  }

  ghost predicate Spells(s: Bytes, v: RespValue, rest: Bytes)
    decreases v, 0
  {
    match v
    case Simple(text) => LineOf(s, [PLUS] + text, rest)
    case Error(text) => LineOf(s, [DASH] + text, rest)
    case Integer(n) => HeaderOf(s, COLON, n, rest)
    case Bulk(None) => exists n :: n < 0 && HeaderOf(s, DOLLAR, n, rest)
    case Bulk(Some(data)) => HeaderOf(s, DOLLAR, |data|, data + CRLF + rest)
    case Array(items) =>
      if items == [] then exists n :: n <= 0 && HeaderOf(s, STAR, n, rest)
      else exists body :: HeaderOf(s, STAR, |items|, body) && SpellsAll(body, items, rest)
  }

  ghost predicate SpellsAll(s: Bytes, items: seq<RespValue>, rest: Bytes)
    decreases items, 1
  {
    if items == [] then s == rest
    else exists mid :: Spells(s, items[0], mid) && SpellsAll(mid, items[1..], rest)
  }

  lemma HeaderRead(s: Bytes, kind: byte)
    requires TakeLine(s).Ok? && TakeLine(s).value != [] && TakeLine(s).value[0] == kind
    requires SignedValue(TakeLine(s).value[1..]).Some?
    ensures HeaderOf(s, kind, SignedValue(TakeLine(s).value[1..]).value, TakeLine(s).rest)
  {
    var line := TakeLine(s).value;
    assert line == [kind] + line[1..];
    LineRead(s);
  }

  lemma HeaderReadsAs(s: Bytes, kind: byte, n: int, body: Bytes)
    requires HeaderOf(s, kind, n, body) && (kind == COLON || kind == DOLLAR || kind == STAR)
    ensures ReadValue(s) == if kind == COLON then Ok(Integer(n), body)
                            else if kind == DOLLAR then ReadBulk(body, n)
                            else ReadArray(body, n)
  {
    var numeral :| SignedValue(numeral) == Some(n) && LineOf(s, [kind] + numeral, body);
    LineReads(s, [kind] + numeral, body);
    assert ([kind] + numeral)[1..] == numeral;
  }

  lemma BulkRead(body: Bytes, len: int)
    requires ReadBulk(body, len).Ok? && len >= 0
    ensures var r := ReadBulk(body, len);
            r.value.Bulk? && r.value.data.Some? && |r.value.data.value| == len
            && body == r.value.data.value + CRLF + r.rest
  {
    var data, rest := body[..len], body[len..];
    assert rest == rest[..2] + rest[2..];
    assert body == data + (rest[..2] + rest[2..]);
  }

  lemma LineValueSpelled(s: Bytes)
    requires TakeLine(s).Ok? && TakeLine(s).value != [] && ReadValue(s).Ok?
    requires TakeLine(s).value[0] == PLUS || TakeLine(s).value[0] == DASH
    ensures Spells(s, ReadValue(s).value, ReadValue(s).rest)
  {
    var line := TakeLine(s).value;
    assert line == [line[0]] + line[1..];
    LineRead(s);
  }

  // Whatever is read is spelled by the stream.
  lemma {:induction false} ReadIsSpelled(s: Bytes)
    requires ReadValue(s).Ok?
    ensures Spells(s, ReadValue(s).value, ReadValue(s).rest)
    decreases |s|, 0
  {
    var line, body := TakeLine(s).value, TakeLine(s).rest;
    var kind := line[0];
    if kind == PLUS || kind == DASH {
      LineValueSpelled(s);
    } else {
      HeaderRead(s, kind);
      var n := SignedValue(line[1..]).value;
      HeaderReadsAs(s, kind, n, body);
      if kind == DOLLAR {
        BulkSpelled(s, n, body);
      } else if kind == STAR {
        if n > 0 {
          ReadItemsAreSpelled(body, n);
          ArraySpelled(s, n, body);
        }
      }
    }
  }

  lemma BulkSpelled(s: Bytes, n: int, body: Bytes)
    requires HeaderOf(s, DOLLAR, n, body) && ReadBulk(body, n).Ok?
    ensures Spells(s, ReadBulk(body, n).value, ReadBulk(body, n).rest)
  {
    if n >= 0 {
      BulkRead(body, n);
    }
  }

  lemma ArraySpelled(s: Bytes, n: int, body: Bytes)
    requires HeaderOf(s, STAR, n, body) && n > 0 && ReadItems(body, n).Ok?
    requires |ReadItems(body, n).value| == n && SpellsAll(body, ReadItems(body, n).value, ReadItems(body, n).rest)
    ensures Spells(s, ReadArray(body, n).value, ReadArray(body, n).rest)
  {
    var items := ReadItems(body, n).value;
    assert HeaderOf(s, STAR, |items|, body);
  }

  lemma {:induction false} ReadItemsAreSpelled(s: Bytes, n: nat)
    requires ReadItems(s, n).Ok?
    ensures |ReadItems(s, n).value| == n && SpellsAll(s, ReadItems(s, n).value, ReadItems(s, n).rest)
    decreases |s|, 1
  {
    if n > 0 {
      ReadIsSpelled(s);
      var first, mid := ReadValue(s).value, ReadValue(s).rest;
      ReadItemsAreSpelled(mid, n - 1);
      var more := ReadItems(mid, n - 1).value;
      assert ([first] + more)[1..] == more;
    }
  }

  // Whatever the stream spells is read.
  lemma {:induction false} SpelledReads(s: Bytes, v: RespValue, rest: Bytes)
    requires Spells(s, v, rest)
    ensures ReadValue(s) == Ok(v, rest)
    decreases v, 0
  {
    match v
    case Simple(text) => StatusReads(s, PLUS, text, rest);
    case Error(text) => StatusReads(s, DASH, text, rest);
    case Integer(n) => HeaderReadsAs(s, COLON, n, rest);
    case Bulk(None) =>
      var n :| n < 0 && HeaderOf(s, DOLLAR, n, rest);
      HeaderReadsAs(s, DOLLAR, n, rest);
    case Bulk(Some(data)) =>
      HeaderReadsAs(s, DOLLAR, |data|, data + CRLF + rest);
      BulkReads(data, rest);
    case Array(items) =>
      if items == [] {
        var n :| n <= 0 && HeaderOf(s, STAR, n, rest);
        HeaderReadsAs(s, STAR, n, rest);
      } else {
        var body :| HeaderOf(s, STAR, |items|, body) && SpellsAll(body, items, rest);
        HeaderReadsAs(s, STAR, |items|, body);
        SpelledItemsRead(body, items, rest);
      }
  }

  lemma StatusReads(s: Bytes, kind: byte, text: Bytes, rest: Bytes)
    requires LineOf(s, [kind] + text, rest) && (kind == PLUS || kind == DASH)
    ensures ReadValue(s) == Ok(if kind == PLUS then Simple(text) else Error(text), rest)
  {
    LineReads(s, [kind] + text, rest);
    assert ([kind] + text)[1..] == text;
  }

  lemma FirstItemRead(s: Bytes, items: seq<RespValue>, mid: Bytes, rest: Bytes)
    requires items != [] && ReadValue(s) == Ok(items[0], mid) && ReadItems(mid, |items| - 1) == Ok(items[1..], rest)
    ensures ReadItems(s, |items|) == Ok(items, rest)
  {
    assert [items[0]] + items[1..] == items;
  }

  lemma {:induction false} SpelledItemsRead(s: Bytes, items: seq<RespValue>, rest: Bytes)
    requires SpellsAll(s, items, rest)
    ensures ReadItems(s, |items|) == Ok(items, rest)
    decreases items, 1
  {
    if items != [] {
      var mid :| Spells(s, items[0], mid) && SpellsAll(mid, items[1..], rest);
      SpelledReads(s, items[0], mid);
      SpelledItemsRead(mid, items[1..], rest);
      FirstItemRead(s, items, mid, rest);
    }
  }

  // The reader accepts exactly this grammar: a stream reads as `v` with `rest` left over if and only if it
  // spells `v` followed by `rest`. Every other stream is an error.
  lemma ReadsExactlySpellings(s: Bytes, v: RespValue, rest: Bytes)
    ensures ReadValue(s) == Ok(v, rest) <==> Spells(s, v, rest)
  {
    if ReadValue(s) == Ok(v, rest) {
      ReadIsSpelled(s);
    }
    if Spells(s, v, rest) {
      SpelledReads(s, v, rest);
    }
  }

  // No stream spells two values.
  lemma SpellingIsUnique(s: Bytes, v: RespValue, rest: Bytes, v': RespValue, rest': Bytes)
    requires Spells(s, v, rest) && Spells(s, v', rest')
    ensures v == v' && rest == rest'
  {
    SpelledReads(s, v, rest);
    SpelledReads(s, v', rest');
  }

  // ---------------------------------------------------------------------------------------
  // Errors.

  // The stream ends inside the data of a bulk string, perhaps one deep in arrays.
  ghost predicate RunsShort(s: Bytes)
    decreases |s|, 0
  {
    || (exists n, body :: 0 <= n && HeaderOf(s, DOLLAR, n, body) && |body| < n + 2)
    || (exists n: nat, body :: 0 < n && HeaderOf(s, STAR, n, body) && |body| < |s| && ItemsRunShort(body, n))
  }

  ghost predicate ItemsRunShort(s: Bytes, n: nat)
    decreases |s|, 1
  {
    n > 0 && (|| RunsShort(s)
              || exists v, mid :: Spells(s, v, mid) && |mid| < |s| && ItemsRunShort(mid, n - 1))
  }

  lemma BulkRunsShort(body: Bytes, n: int)
    ensures ReadBulk(body, n) == Err(Io) <==> 0 <= n && |body| < n + 2
  {
    if 0 <= n <= |body| {
      var rest := body[n..];
      assert TakeExact(body, n) == Ok(body[..n], rest);
      assert TakeExact(rest, 2).Err? <==> |body| < n + 2;
    }
  }

  lemma IoAfterLine(line: Bytes, body: Bytes)
    requires ReadAfter(line, body) == Err(Io)
    ensures line != [] && SignedValue(line[1..]).Some?
    ensures var n := SignedValue(line[1..]).value;
            || (line[0] == DOLLAR && ReadBulk(body, n) == Err(Io))
            || (line[0] == STAR && n > 0 && ReadItems(body, n) == Err(Io))
  {
  }

  // Only a bulk string or an array can run short.
  lemma IoComesFromHeader(s: Bytes) returns (kind: byte, n: int, body: Bytes)
    requires ReadValue(s) == Err(Io)
    ensures HeaderOf(s, kind, n, body) && |body| < |s|
    ensures (kind == DOLLAR && ReadBulk(body, n) == Err(Io)) ||
            (kind == STAR && n > 0 && ReadItems(body, n) == Err(Io))
  {
    assert TakeLine(s).Ok?;
    var line := TakeLine(s).value;
    body := TakeLine(s).rest;
    IoAfterLine(line, body);
    kind, n := line[0], SignedValue(line[1..]).value;
    HeaderRead(s, kind);
  }

  lemma {:induction false} IoExactlyWhenShort(s: Bytes)
    ensures ReadValue(s) == Err(Io) <==> RunsShort(s)
    decreases |s|, 0
  {
    if ReadValue(s) == Err(Io) {
      var kind, n, body := IoComesFromHeader(s);
      if kind == DOLLAR {
        BulkRunsShort(body, n);
      } else {
        ItemsIoMeansShort(body, n);
      }
    }
    if RunsShort(s) {
      ShortIsIo(s);
    }
  }

  lemma {:induction false} ShortIsIo(s: Bytes)
    requires RunsShort(s)
    ensures ReadValue(s) == Err(Io)
    decreases |s|, 0
  {
    if exists n, body :: 0 <= n && HeaderOf(s, DOLLAR, n, body) && |body| < n + 2 {
      var n, body :| 0 <= n && HeaderOf(s, DOLLAR, n, body) && |body| < n + 2;
      HeaderReadsAs(s, DOLLAR, n, body);
      BulkRunsShort(body, n);
    } else {
      var n: nat, body :| 0 < n && HeaderOf(s, STAR, n, body) && |body| < |s| && ItemsRunShort(body, n);
      HeaderReadsAs(s, STAR, n, body);
      ShortItemsAreIo(body, n);
    }
  }

  lemma {:induction false} ShortItemsAreIo(s: Bytes, n: nat)
    requires ItemsRunShort(s, n)
    ensures ReadItems(s, n) == Err(Io)
    decreases |s|, 1
  {
    if RunsShort(s) {
      ShortIsIo(s);
    } else {
      var v, mid :| Spells(s, v, mid) && |mid| < |s| && ItemsRunShort(mid, n - 1);
      SpelledReads(s, v, mid);
      ShortItemsAreIo(mid, n - 1);
    }
  }

  lemma {:induction false} ItemsIoMeansShort(s: Bytes, n: nat)
    ensures ReadItems(s, n) == Err(Io) ==> ItemsRunShort(s, n)
    decreases |s|, 1
  {
    if ReadItems(s, n) == Err(Io) {
      if ReadValue(s).Ok? {
        ReadIsSpelled(s);
        ItemsIoMeansShort(ReadValue(s).rest, n - 1);
      } else {
        IoExactlyWhenShort(s);
      }
    }
  }
}
