/**
 What the server (hkv-server/src/server.rs) answers to each command, said of the reply that goes out:
 DEL over several keys, PING, the letter case of words, and every kind of refusal.
 */
module CommandReplies {
  import opened Base
  import opened Decimal
  import opened Recency
  import opened Cache
  import opened ClientResp
  import opened PlainStore
  import opened Server

  // ---------------------------------------------------------------------------------------
  // Letter case.

  // Each letter of `word` as it is or in the other case.
  predicate SameWord(word: Bytes, other: Bytes) {
    |word| == |other| && forall i :: 0 <= i < |word| ==> SameLetter(word[i], other[i])
  }

  predicate SameLetter(b: byte, c: byte) {
    b == c || (65 <= b <= 90 && c == b + 32) || (65 <= c <= 90 && b == c + 32)
  }

  lemma SameLetterFolds(b: byte, c: byte)
    ensures ToLower(b) == ToLower(c) <==> SameLetter(b, c)
  {
  }

  // The comparison ignores case and nothing else.
  lemma ComparesUpToCase(a: Bytes, b: Bytes)
    ensures EqIgnoreAsciiCase(a, b) <==> SameWord(a, b)
  {
    forall i | 0 <= i < |a| == |b| ensures ToLower(a[i]) == ToLower(b[i]) <==> SameLetter(a[i], b[i]) {
      SameLetterFolds(a[i], b[i]);
    }
  }

  lemma RespelledCompares(a: Bytes, b: Bytes, word: Bytes)
    requires SameWord(a, b)
    ensures EqIgnoreAsciiCase(a, word) <==> EqIgnoreAsciiCase(b, word)
  {
    ComparesUpToCase(a, b);
  }

  // Arguments that differ only in the case of the command word, and of the option word of SET.
  predicate Respelled(args: seq<Bytes>, args': seq<Bytes>) {
    && |args| == |args'| && args != [] && SameWord(args[0], args'[0])
    && forall i :: 1 <= i < |args| ==>
         args[i] == args'[i]
         || (i == 3 && |args| == 5 && EqIgnoreAsciiCase(args[0], SET) && SameWord(args[3], args'[3]))
  }

  lemma SetCaseIrrelevant(cfg: Config, c: Cache, args: seq<Bytes>, args': seq<Bytes>, clock: Clock)
    requires WellFormed(cfg, c) && Respelled(args, args')
    ensures HandleSet(cfg, c, args, clock) == HandleSet(cfg, c, args', clock)
  {
    if |args| == 5 && args[3] != args'[3] {
      RespelledCompares(args[3], args'[3], EX);
    }
  }

  lemma OthersCaseIrrelevant(cfg: Config, c: Cache, args: seq<Bytes>, args': seq<Bytes>, clock: Clock)
    requires WellFormed(cfg, c) && Respelled(args, args') && !EqIgnoreAsciiCase(args[0], SET)
    ensures args[1..] == args'[1..]
    ensures HandlePing(args) == HandlePing(args') && HandleGet(cfg, c, args, clock) == HandleGet(cfg, c, args', clock)
    ensures HandleDel(cfg, c, args, clock) == HandleDel(cfg, c, args', clock)
    ensures HandleExpire(cfg, c, args, clock) == HandleExpire(cfg, c, args', clock)
    ensures HandleTtl(cfg, c, args, clock) == HandleTtl(cfg, c, args', clock)
  {
  }

  lemma WordsCompareAlike(a: Bytes, b: Bytes)
    requires SameWord(a, b)
    ensures EqIgnoreAsciiCase(a, PING) == EqIgnoreAsciiCase(b, PING)
    ensures EqIgnoreAsciiCase(a, GET) == EqIgnoreAsciiCase(b, GET)
    ensures EqIgnoreAsciiCase(a, SET) == EqIgnoreAsciiCase(b, SET)
    ensures EqIgnoreAsciiCase(a, DEL) == EqIgnoreAsciiCase(b, DEL)
    ensures EqIgnoreAsciiCase(a, EXPIRE) == EqIgnoreAsciiCase(b, EXPIRE)
    ensures EqIgnoreAsciiCase(a, TTL) == EqIgnoreAsciiCase(b, TTL)
    ensures EqIgnoreAsciiCase(a, INFO) == EqIgnoreAsciiCase(b, INFO)
  {
    RespelledCompares(a, b, PING);
    RespelledCompares(a, b, GET);
    RespelledCompares(a, b, SET);
    RespelledCompares(a, b, DEL);
    RespelledCompares(a, b, EXPIRE);
    RespelledCompares(a, b, TTL);
    RespelledCompares(a, b, INFO);
  }

  lemma CaseIrrelevant(cfg: Config, c: Cache, args: seq<Bytes>, args': seq<Bytes>, clock: Clock, info: Bytes)
    requires WellFormed(cfg, c) && Respelled(args, args')
    ensures Dispatch(cfg, c, args, clock, info) == Dispatch(cfg, c, args', clock, info)
  {
    WordsCompareAlike(args[0], args'[0]);
    if EqIgnoreAsciiCase(args[0], SET) {
      SetCaseIrrelevant(cfg, c, args, args', clock);
      FirstLetters(args[0]);
    } else {
      OthersCaseIrrelevant(cfg, c, args, args', clock);
    }
  }

  lemma FirstLetters(word: Bytes)
    requires EqIgnoreAsciiCase(word, SET)
    ensures !EqIgnoreAsciiCase(word, PING) && !EqIgnoreAsciiCase(word, GET)
  {
    assert ToLower(word[0]) == ToLower(SET[0]) != ToLower(GET[0]);
  }

  // ---------------------------------------------------------------------------------------
  // DEL.

  lemma {:induction false} DeleteAllHides(cfg: Config, c: Cache, keys: seq<Bytes>, clock: Clock, now: nat, k: nat,
                                          key: Bytes)
    requires WellFormed(cfg, c) && forall i: nat :: clock(i) == now
    ensures LiveOf(cfg, DeleteAll(cfg, c, keys, clock, k).0, key, now) ==
            if key in keys then None else LiveOf(cfg, c, key, now)
    decreases |keys|
  {
    if keys != [] {
      DeleteHides(cfg, c, keys[0], key, now);
      DeleteAllHides(cfg, Step(cfg, c, Delete(keys[0]), now).0, keys[1..], clock, now, k + 1, key);
    }
  }

  lemma DelDispatches(cfg: Config, c: Cache, args: seq<Bytes>, clock: Clock, info: Bytes)
    requires WellFormed(cfg, c) && args != [] && SameWord(args[0], DEL)
    ensures Dispatch(cfg, c, args, clock, info) == HandleDel(cfg, c, args, clock)
  {
    ComparesUpToCase(args[0], DEL);
    assert ToLower(args[0][0]) == ToLower(DEL[0]) != ToLower(GET[0]);
    assert ToLower(DEL[0]) != ToLower(SET[0]);
  }

  // DEL replies with the number of distinct live keys among its arguments; afterwards none of them is
  // live, and nothing else has changed.
  lemma DelReply(cfg: Config, c: Cache, args: seq<Bytes>, clock: Clock, now: nat, info: Bytes, key: Bytes)
    requires WellFormed(cfg, c) && |args| >= 2 && SameWord(args[0], DEL) && forall i: nat :: clock(i) == now
    ensures var o := Dispatch(cfg, c, args, clock, info);
            && o.Replied? && o.reply == Integer(|LiveKeys(cfg, c, args[1..], now)|)
            && LiveOf(cfg, o.cache, key, now) == if key in args[1..] then None else LiveOf(cfg, c, key, now)
  {
    DelDispatches(cfg, c, args, clock, info);
    DelCountsDistinctLiveKeys(cfg, c, args[1..], clock, now, 0);
    DeleteAllHides(cfg, c, args[1..], clock, now, 0, key);
  }

  // ---------------------------------------------------------------------------------------
  // Refusals.

  // An argument list that its command does not take.
  predicate BadArguments(args: seq<Bytes>)
    requires args != []
  {
    || (SameWord(args[0], PING) && |args| > 2)
    || (SameWord(args[0], GET) && |args| != 2)
    || (SameWord(args[0], SET) && (|| |args| < 3 || |args| == 4 || |args| > 5
                                   || (|args| == 5 && (!SameWord(args[3], EX) || !IsNumeral(args[4])))))
    || (SameWord(args[0], DEL) && |args| < 2)
    || (SameWord(args[0], EXPIRE) && (|args| != 3 || !IsNumeral(args[2])))
    || (SameWord(args[0], TTL) && |args| != 2)
  }

  predicate IsNumeral(s: Bytes) {
    s != [] && AllDigits(s)
  }

  predicate KnownWord(word: Bytes) {
    || SameWord(word, PING) || SameWord(word, GET) || SameWord(word, SET) || SameWord(word, DEL)
    || SameWord(word, EXPIRE) || SameWord(word, TTL) || SameWord(word, INFO)
  }

  predicate Refusable(args: seq<Bytes>) {
    args == [] || !KnownWord(args[0]) || BadArguments(args)
  }

  lemma WordsCompare(word: Bytes)
    ensures EqIgnoreAsciiCase(word, PING) == SameWord(word, PING)
    ensures EqIgnoreAsciiCase(word, GET) == SameWord(word, GET)
    ensures EqIgnoreAsciiCase(word, SET) == SameWord(word, SET)
    ensures EqIgnoreAsciiCase(word, DEL) == SameWord(word, DEL)
    ensures EqIgnoreAsciiCase(word, EXPIRE) == SameWord(word, EXPIRE)
    ensures EqIgnoreAsciiCase(word, TTL) == SameWord(word, TTL)
    ensures EqIgnoreAsciiCase(word, INFO) == SameWord(word, INFO)
  {
    ComparesUpToCase(word, PING);
    ComparesUpToCase(word, GET);
    ComparesUpToCase(word, SET);
    ComparesUpToCase(word, DEL);
    ComparesUpToCase(word, EXPIRE);
    ComparesUpToCase(word, TTL);
    ComparesUpToCase(word, INFO);
  }

  // No word is spelled like two of them.
  lemma OneWord(word: Bytes)
    ensures SameWord(word, GET) ==> !SameWord(word, SET) && !SameWord(word, DEL) && !SameWord(word, TTL)
    ensures SameWord(word, SET) ==> !SameWord(word, DEL) && !SameWord(word, TTL)
    ensures SameWord(word, DEL) ==> !SameWord(word, TTL)
    ensures SameWord(word, PING) ==> !SameWord(word, INFO)
  {
    if |word| == 3 {
      assert !(SameLetter(word[0], GET[0]) && SameLetter(word[0], SET[0]));
      assert !(SameLetter(word[0], GET[0]) && SameLetter(word[0], DEL[0]));
      assert !(SameLetter(word[0], GET[0]) && SameLetter(word[0], TTL[0]));
      assert !(SameLetter(word[0], SET[0]) && SameLetter(word[0], DEL[0]));
      assert !(SameLetter(word[0], SET[0]) && SameLetter(word[0], TTL[0]));
      assert !(SameLetter(word[0], DEL[0]) && SameLetter(word[0], TTL[0]));
    }
    if |word| == 4 {
      assert !(SameLetter(word[0], PING[0]) && SameLetter(word[0], INFO[0]));
    }
  }

  predicate Refused(c: Cache, o: Outcome) {
    o.Replied? && o.reply.Error? && o.cache == c
  }

  // SET with EX whose entry does not outlive its own eviction.
  predicate SelfEvicted(cfg: Config, c: Cache, args: seq<Bytes>, clock: Clock)
    requires WellFormed(cfg, c)
  {
    && |args| == 5 && SameWord(args[0], SET) && !BadArguments(args)
    && !Kept(cfg, c, args[1], args[2], clock(0), clock(1))
  }

  lemma SetExErrs(cfg: Config, c: Cache, args: seq<Bytes>, seconds: nat, clock: Clock)
    requires WellFormed(cfg, c) && |args| == 5
    ensures var o := SetEx(cfg, c, args[1], args[2], seconds, clock);
            o.Replied? && o.reply.Error? <==> !Kept(cfg, c, args[1], args[2], clock(0), clock(1))
  {
  }

  lemma SetRefuses(cfg: Config, c: Cache, args: seq<Bytes>, clock: Clock)
    requires WellFormed(cfg, c) && args != [] && SameWord(args[0], SET)
    ensures BadArguments(args) ==> Refused(c, HandleSet(cfg, c, args, clock))
    ensures var o := HandleSet(cfg, c, args, clock);
            !BadArguments(args) ==> (o.Replied? && o.reply.Error? <==> SelfEvicted(cfg, c, args, clock))
  {
    OneWord(args[0]);
    if |args| == 5 {
      ComparesUpToCase(args[3], EX);
      if SameWord(args[3], EX) && IsNumeral(args[4]) {
        SetExErrs(cfg, c, args, Unsigned(args[4], USIZE_MAX).value, clock);
      }
    }
  }

  lemma OthersRefuse(cfg: Config, c: Cache, args: seq<Bytes>, clock: Clock)
    requires WellFormed(cfg, c) && args != []
    ensures SameWord(args[0], PING) ==> (HandlePing(args).Error? <==> BadArguments(args))
    ensures SameWord(args[0], GET) ==>
              if BadArguments(args) then Refused(c, HandleGet(cfg, c, args, clock))
              else !HandleGet(cfg, c, args, clock).reply.Error?
    ensures SameWord(args[0], DEL) ==>
              if BadArguments(args) then Refused(c, HandleDel(cfg, c, args, clock))
              else !HandleDel(cfg, c, args, clock).reply.Error?
    ensures SameWord(args[0], TTL) ==>
              if BadArguments(args) then Refused(c, HandleTtl(cfg, c, args, clock))
              else !HandleTtl(cfg, c, args, clock).reply.Error?
  {
    OneWord(args[0]);
  }

  lemma ExpireRefuses(cfg: Config, c: Cache, args: seq<Bytes>, clock: Clock)
    requires WellFormed(cfg, c) && args != [] && SameWord(args[0], EXPIRE)
    ensures var o := HandleExpire(cfg, c, args, clock);
            if BadArguments(args) then Refused(c, o) else o.Replied? ==> !o.reply.Error?
  {
  }

  // Exactly these commands get an error reply: those that can be refused, which leave the engine as it
  // was, and a SET with EX that evicts its own entry.
  lemma RefusesExactly(cfg: Config, c: Cache, args: seq<Bytes>, clock: Clock, info: Bytes)
    requires WellFormed(cfg, c)
    ensures var o := Dispatch(cfg, c, args, clock, info);
            && (Refusable(args) ==> Refused(c, o))
            && (o.Replied? && o.reply.Error? <==> Refusable(args) || SelfEvicted(cfg, c, args, clock))
  {
    if args != [] {
      WordsCompare(args[0]);
      OneWord(args[0]);
      OthersRefuse(cfg, c, args, clock);
      if SameWord(args[0], SET) {
        SetRefuses(cfg, c, args, clock);
      } else if SameWord(args[0], EXPIRE) {
        ExpireRefuses(cfg, c, args, clock);
      }
    }
  }

  // PING answers PONG, or echoes its argument; INFO answers the metrics text. Neither touches the engine.
  lemma PingAndInfoReply(cfg: Config, c: Cache, args: seq<Bytes>, clock: Clock, info: Bytes)
    requires WellFormed(cfg, c) && args != []
    ensures SameWord(args[0], PING) && |args| == 1 ==>
              Dispatch(cfg, c, args, clock, info) == Replied(c, Simple([80, 79, 78, 71]))
    ensures SameWord(args[0], PING) && |args| == 2 ==>
              Dispatch(cfg, c, args, clock, info) == Replied(c, Bulk(Some(args[1])))
    ensures SameWord(args[0], INFO) ==> Dispatch(cfg, c, args, clock, info) == Replied(c, Bulk(Some(info)))
  {
    WordsCompare(args[0]);
    OneWord(args[0]);
    assert Ascii("PONG") == [80, 79, 78, 71];
  }

  // ---------------------------------------------------------------------------------------
  // Carried out.

  lemma ReadersDispatch(cfg: Config, c: Cache, args: seq<Bytes>, clock: Clock, info: Bytes)
    requires WellFormed(cfg, c) && args != []
    ensures SameWord(args[0], GET) ==> Dispatch(cfg, c, args, clock, info) == HandleGet(cfg, c, args, clock)
    ensures SameWord(args[0], SET) ==> Dispatch(cfg, c, args, clock, info) == HandleSet(cfg, c, args, clock)
    ensures SameWord(args[0], TTL) ==> Dispatch(cfg, c, args, clock, info) == HandleTtl(cfg, c, args, clock)
    ensures SameWord(args[0], EXPIRE) ==> Dispatch(cfg, c, args, clock, info) == HandleExpire(cfg, c, args, clock)
  {
    WordsCompare(args[0]);
    OneWord(args[0]);
  }

  // GET replies with the live value, or null.
  lemma GetReply(cfg: Config, c: Cache, args: seq<Bytes>, clock: Clock, info: Bytes)
    requires WellFormed(cfg, c) && |args| == 2 && SameWord(args[0], GET)
    ensures var o, live := Dispatch(cfg, c, args, clock, info), LiveOf(cfg, c, args[1], clock(0));
            o.Replied? && o.reply == Bulk(if live.None? then None else Some(live.value.value))
  {
    ReadersDispatch(cfg, c, args, clock, info);
  }

  // TTL replies with whole seconds, rounded down; minus one without a deadline, minus two without a key.
  lemma TtlReply(cfg: Config, c: Cache, args: seq<Bytes>, clock: Clock, info: Bytes)
    requires WellFormed(cfg, c) && AllResident(c) && |args| == 2 && SameWord(args[0], TTL)
    ensures var o, live := Dispatch(cfg, c, args, clock, info), LiveOf(cfg, c, args[1], clock(0));
            && o.Replied? && o.reply.Integer?
            && (live.None? ==> o.reply.n == -2)
            && (live.Some? && live.value.deadline.None? ==> o.reply.n == -1)
            && (live.Some? && live.value.deadline.Some? ==>
                  o.reply.n * NANOS_PER_SEC <= live.value.deadline.value - clock(0) < (o.reply.n + 1) * NANOS_PER_SEC)
  {
    ReadersDispatch(cfg, c, args, clock, info);
    var l := c.shards[ShardOf(cfg, args[1])];
    if Live(l, args[1], clock(0)).Some? {
      ResidentFind(l, args[1]);
      var e := Live(l, args[1], clock(0)).value;
      if e.deadline.Some? {
        SecondsInRange(e.deadline.value - clock(0));
      }
    }
  }

  // EXPIRE with the digits of `seconds` on a live key sets the deadline that many seconds from its clock
  // reading and replies 1; without a live key it replies 0.
  lemma ExpireReply(cfg: Config, c: Cache, args: seq<Bytes>, seconds: nat, clock: Clock, info: Bytes)
    requires WellFormed(cfg, c) && |args| == 3 && SameWord(args[0], EXPIRE)
    requires args[2] == Digits(seconds) && clock(0) + seconds * NANOS_PER_SEC <= INSTANT_MAX
    ensures var o, live := Dispatch(cfg, c, args, clock, info), LiveOf(cfg, c, args[1], clock(0));
            && o.Replied? && o.reply == Integer(if live.Some? then 1 else 0)
            && Find(o.cache.shards[ShardOf(cfg, args[1])], args[1]) ==
               if live.None? then None
               else Some(Entry(args[1], live.value.value, Some(clock(0) + seconds * NANOS_PER_SEC)))
  {
    ReadersDispatch(cfg, c, args, clock, info);
    UnsignedRoundTrip(seconds, USIZE_MAX);
    var l := c.shards[ShardOf(cfg, args[1])];
    FindWithout(l, args[1], args[1]);
    FindWithDeadline(l, args[1], clock(0) + seconds * NANOS_PER_SEC, args[1]);
  }

  // SET on an unlimited engine replies OK and leaves the value without a deadline; with EX, a deadline
  // that many seconds from its second clock reading.
  lemma SetReply(cfg: Config, c: Cache, args: seq<Bytes>, clock: Clock, info: Bytes, later: nat)
    requires WellFormed(cfg, c) && Unlimited(cfg) && |args| == 3 && SameWord(args[0], SET)
    ensures var o := Dispatch(cfg, c, args, clock, info);
            && o.Replied? && o.reply == Simple([79, 75])
            && LiveOf(cfg, o.cache, args[1], later) == Some(Stored(args[2], None))
  {
    ReadersDispatch(cfg, c, args, clock, info);
    SetOwnKey(c.shards[ShardOf(cfg, args[1])], args[1], args[2], later);
    assert Ascii("OK") == [79, 75];
  }

  lemma SetExStores(cfg: Config, c: Cache, key: Bytes, value: Bytes, seconds: nat, clock: Clock)
    requires WellFormed(cfg, c) && Unlimited(cfg) && clock(1) + seconds * NANOS_PER_SEC <= INSTANT_MAX
    ensures var o := SetEx(cfg, c, key, value, seconds, clock);
            && o.Replied? && o.reply == Simple(Ascii("OK"))
            && Find(o.cache.shards[ShardOf(cfg, key)], key) ==
               Some(Entry(key, value, Some(clock(1) + seconds * NANOS_PER_SEC)))
  {
    var l := c.shards[ShardOf(cfg, key)];
    SetOwnKey(l, key, value, clock(1));
    FindWithDeadline(SetIn(l, key, value), key, clock(1) + seconds * NANOS_PER_SEC, key);
  }

  lemma OkText()
    ensures Ascii("OK") == [79, 75]
  {
  }

  lemma SetExHandled(cfg: Config, c: Cache, args: seq<Bytes>, seconds: nat, clock: Clock)
    requires WellFormed(cfg, c) && |args| == 5 && SameWord(args[3], EX)
    requires args[4] == Digits(seconds) && seconds <= USIZE_MAX
    ensures HandleSet(cfg, c, args, clock) == SetEx(cfg, c, args[1], args[2], seconds, clock)
  {
    ComparesUpToCase(args[3], EX);
    UnsignedRoundTrip(seconds, USIZE_MAX);
  }

  lemma SetExReply(cfg: Config, c: Cache, args: seq<Bytes>, seconds: nat, clock: Clock, info: Bytes)
    requires WellFormed(cfg, c) && Unlimited(cfg) && |args| == 5 && SameWord(args[0], SET) && SameWord(args[3], EX)
    requires args[4] == Digits(seconds) && clock(1) + seconds * NANOS_PER_SEC <= INSTANT_MAX
    ensures var o := Dispatch(cfg, c, args, clock, info);
            && o.Replied? && o.reply == Simple([79, 75])
            && Find(o.cache.shards[ShardOf(cfg, args[1])], args[1]) ==
               Some(Entry(args[1], args[2], Some(clock(1) + seconds * NANOS_PER_SEC)))
  {
    ReadersDispatch(cfg, c, args, clock, info);
    SetExHandled(cfg, c, args, seconds, clock);
    SetExStores(cfg, c, args[1], args[2], seconds, clock);
    OkText();
  }
}
