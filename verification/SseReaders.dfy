/** The three readers of the event stream (section 9.2.6 of the WHATWG HTML standard). */
module SseReaders {
  import opened Options
  import opened Seqs
  import opened Strings

  // One belongs to the agent client, one to a knowledge question, and one continues a stream. Each
  // goes through the lines once, keeping the data and the event name it has seen.

  /** What the reader is used with. The callback is asked with all events delivered so far, the new
      one last, so it may keep any state; `terminal` marks a final error frame. */
  datatype Client<!E> = Client(decode: string -> Option<E>, callback: seq<E> -> bool, terminal: E -> bool)

  datatype Outcome = Finished | BadData | CallbackFailed | StreamError | ReadFailed

  datatype Result<E> = Result(delivered: seq<E>, outcome: Outcome)

  const DATA: string := "data:"
  const EVENT: string := "event:"

  predicate GoSpace(c: char) {
    || '\t' <= c <= '\r'
    || c in {' ', '\U{85}', '\U{a0}', '\U{1680}', '\U{2028}', '\U{2029}', '\U{202f}', '\U{205f}', '\U{3000}'}
    || '\U{2000}' <= c <= '\U{200a}'
  }

  /** Go trims what Python trims, except the four separators U+001C to U+001F. */
  lemma GoSpaceIff(c: char)
    ensures GoSpace(c) <==> White(c) && !('\U{1c}' <= c <= '\U{1f}')
  {
  }

  function TrimSpace(s: string): string { Strip(s, GoSpace) }

  function Same(s: string): string { s }

  // ---- The meaning: blocks, payloads, deliveries ----

  /** The blocks that an empty line has ended, and the lines of the block still open. */
  datatype Blocks = Blocks(complete: seq<seq<string>>, open: seq<string>)

  function BlocksOf(lines: seq<string>): Blocks {
    if lines == [] then Blocks([], []) else
    var b, line := BlocksOf(lines[..|lines| - 1]), lines[|lines| - 1];
    if line == "" then Blocks(b.complete + [b.open], []) else Blocks(b.complete, b.open + [line])
  }

  /** The text after the prefix in the last line that has it. */
  function LastOf(prefix: string, lines: seq<string>): Option<string> {
    if lines == [] then None
    else if prefix <= lines[|lines| - 1] then Some(lines[|lines| - 1][|prefix|..])
    else LastOf(prefix, lines[..|lines| - 1])
  }

  function OrElse(o: Option<string>, default: string): string { if o.Some? then o.value else default }

  /** The data a block stands for; `clean` is what the reader does to it. */
  function PayloadOf(clean: string -> string): seq<string> -> seq<string> {
    (block: seq<string>) =>
      var data := LastOf(DATA, block);
      if data.Some? && clean(data.value) != "" then [clean(data.value)] else []
  }

  function Payloads(lines: seq<string>, clean: string -> string): seq<string> {
    FlatMap(BlocksOf(lines).complete, PayloadOf(clean))
  }

  /** Hands the payloads to the client one by one until one of them ends the stream. */
  function Deliver<E>(client: Client<E>, payloads: seq<string>, before: seq<E>): Result<E> {
    if payloads == [] then Result(before, Finished) else
    match client.decode(payloads[0])
    case None => Result(before, BadData)
    case Some(event) =>
      var delivered := before + [event];
      if !client.callback(delivered) then Result(delivered, CallbackFailed)
      else if client.terminal(event) then Result(delivered, StreamError)
      else Deliver(client, payloads[1..], delivered)
  }

  /** The end of a stream whose reading failed is an error as well. */
  function Closed<E>(r: Result<E>, readError: bool): Result<E> {
    if r.outcome.Finished? && readError then r.(outcome := ReadFailed) else r
  }

  /** A failed reading shows exactly when the delivery had not failed before; what was delivered stays. */
  lemma ClosedMeaning<E>(client: Client<E>, payloads: seq<string>, readError: bool)
    ensures var r, closed := Deliver(client, payloads, []), Closed(Deliver(client, payloads, []), readError);
      && closed.delivered == r.delivered
      && (closed.outcome == ReadFailed <==> readError && r.outcome == Finished)
      && (closed.outcome != ReadFailed ==> closed == r)
  {
    NeverReadFailed(client, payloads, []);
  }

  lemma {:induction false} NeverReadFailed<E>(client: Client<E>, payloads: seq<string>, before: seq<E>)
    ensures Deliver(client, payloads, before).outcome != ReadFailed
  {
    if payloads != [] && client.decode(payloads[0]).Some? {
      NeverReadFailed(client, payloads[1..], before + [client.decode(payloads[0]).value]);
    }
  }

  lemma {:induction false} DeliverAppend<E>(client: Client<E>, a: seq<string>, b: seq<string>, before: seq<E>)
    ensures var r := Deliver(client, a, before);
      Deliver(client, a + b, before) == if r.outcome.Finished? then Deliver(client, b, r.delivered) else r
  {
    if a == [] {
      assert a + b == b;
    } else {
      assert (a + b)[0] == a[0] && (a + b)[1..] == a[1..] + b;
      match client.decode(a[0]) {
        case None =>
        case Some(event) => DeliverAppend(client, a[1..], b, before + [event]);
      }
    }
  }

  function Upto<E>(before: seq<E>, events: seq<E>, k: nat): seq<E>
    requires k <= |events|
  {
    before + events[..k]
  }

  /** The k-th event, delivered after the ones in front of it, neither is refused nor ends the stream. */
  predicate Passes<E>(client: Client<E>, before: seq<E>, events: seq<E>, k: nat)
    requires 0 < k <= |events|
  {
    client.callback(Upto(before, events, k)) && !client.terminal(events[k - 1])
  }

  /** The first n events were delivered: those before the n-th were accepted and not terminal, and
      the n-th one, if the stream did not simply run out, is the reason it ended. */
  ghost predicate IsDelivery<E>(client: Client<E>, before: seq<E>, events: seq<E>, n: nat, r: Result<E>) {
    && n <= |events| && r.delivered == Upto(before, events, n)
    && (forall k :: 0 < k < n ==> Passes(client, before, events, k))
    && match r.outcome
       case Finished => n == |events| && (n > 0 ==> Passes(client, before, events, n))
       case CallbackFailed => n > 0 && !client.callback(Upto(before, events, n))
       case StreamError => n > 0 && client.callback(Upto(before, events, n)) && client.terminal(events[n - 1])
       case _ => false
  }

  /** For payloads that all decode, the events delivered are a prefix of the encoded ones, up to and
      including the first terminal error or refused event. */
  lemma {:induction false} DeliverIsPrefix<E>(client: Client<E>, payloads: seq<string>, events: seq<E>, before: seq<E>)
      returns (n: nat)
    requires |payloads| == |events| && forall k :: 0 <= k < |events| ==> client.decode(payloads[k]) == Some(events[k])
    ensures IsDelivery(client, before, events, n, Deliver(client, payloads, before))
  {
    if events == [] {
      n := 0;
    } else {
      var first := before + [events[0]];
      assert Upto(before, events, 1) == first;
      n := 1;
      if client.callback(first) && !client.terminal(events[0]) {
        var m := DeliverIsPrefix(client, payloads[1..], events[1..], first);
        n := m + 1;
        IsDeliveryShifts(client, before, events, m, Deliver(client, payloads, before));
      }
    }
  }

  lemma IsDeliveryShifts<E>(client: Client<E>, before: seq<E>, events: seq<E>, m: nat, r: Result<E>)
    requires events != [] && IsDelivery(client, before + [events[0]], events[1..], m, r)
    requires client.callback(before + [events[0]]) && !client.terminal(events[0])
    ensures IsDelivery(client, before, events, m + 1, r)
  {
    var first, rest := before + [events[0]], events[1..];
    assert Upto(before, events, 1) == first;
    assert Upto(first, rest, m) == Upto(before, events, m + 1);
    assert m > 0 ==> rest[m - 1] == events[m];
    forall k | 0 < k < m + 1 ensures Passes(client, before, events, k) {
      if k > 1 {
        assert Passes(client, first, rest, k - 1);
        assert Upto(first, rest, k - 1) == Upto(before, events, k);
      }
    }
    if m > 0 && r.outcome.Finished? {
      assert Passes(client, first, rest, m);
    }
  }

  // ---- Stepping through lines ----

  lemma BlocksStep(lines: seq<string>, i: nat)
    requires i < |lines|
    ensures var b := BlocksOf(lines[..i]);
      BlocksOf(lines[..i + 1]) ==
        if lines[i] == "" then Blocks(b.complete + [b.open], []) else Blocks(b.complete, b.open + [lines[i]])
  {
    assert lines[..i + 1][..i] == lines[..i];
  }

  lemma BlocksSnoc(lines: seq<string>, line: string)
    ensures var b := BlocksOf(lines);
      BlocksOf(lines + [line]) ==
        if line == "" then Blocks(b.complete + [b.open], []) else Blocks(b.complete, b.open + [line])
  {
    assert (lines + [line])[..|lines|] == lines;
  }

  lemma LastOfStep(prefix: string, lines: seq<string>, line: string)
    ensures LastOf(prefix, lines + [line]) == if prefix <= line then Some(line[|prefix|..]) else LastOf(prefix, lines)
  {
    assert (lines + [line])[..|lines|] == lines;
  }

  /** Later lines only add blocks. */
  lemma {:induction false} BlocksGrow(lines: seq<string>, i: nat)
    requires i <= |lines|
    ensures BlocksOf(lines[..i]).complete <= BlocksOf(lines).complete
    decreases |lines| - i
  {
    if i == |lines| {
      assert lines[..i] == lines;
    } else {
      BlocksStep(lines, i);
      BlocksGrow(lines, i + 1);
    }
  }

  lemma EndedPrefix<E>(client: Client<E>, a: seq<string>, b: seq<string>)
    requires a <= b && !Deliver(client, a, []).outcome.Finished?
    ensures Deliver(client, b, []) == Deliver(client, a, [])
  {
    assert b == a + b[|a|..];
    DeliverAppend(client, a, b[|a|..], []);
  }

  /** A stream that ended inside some prefix of the lines has ended. */
  lemma EndedEarly<E>(lines: seq<string>, i: nat, clean: string -> string, client: Client<E>)
    requires i <= |lines| && !Deliver(client, Payloads(lines[..i], clean), []).outcome.Finished?
    ensures Deliver(client, Payloads(lines, clean), []) == Deliver(client, Payloads(lines[..i], clean), [])
  {
    var a, b := BlocksOf(lines[..i]).complete, BlocksOf(lines).complete;
    BlocksGrow(lines, i);
    assert b == a + b[|a|..];
    FlatMapAppend(a, b[|a|..], PayloadOf(clean));
    EndedPrefix(client, Payloads(lines[..i], clean), Payloads(lines, clean));
  }

  /** An empty line hands over the data of the open block. */
  lemma EmptyLineDelivers<E>(lines: seq<string>, i: nat, clean: string -> string, client: Client<E>, delivered: seq<E>)
    requires i < |lines| && lines[i] == ""
    requires Deliver(client, Payloads(lines[..i], clean), []) == Result(delivered, Finished)
    ensures Deliver(client, Payloads(lines[..i + 1], clean), [])
         == Deliver(client, PayloadOf(clean)(BlocksOf(lines[..i]).open), delivered)
  {
    var b := BlocksOf(lines[..i]);
    BlocksStep(lines, i);
    FlatMapAppend(b.complete, [b.open], PayloadOf(clean));
    assert FlatMap([b.open], PayloadOf(clean)) == PayloadOf(clean)(b.open);
    DeliverAppend(client, Payloads(lines[..i], clean), PayloadOf(clean)(b.open), []);
  }

  lemma OtherLineWaits(lines: seq<string>, i: nat, clean: string -> string)
    requires i < |lines| && lines[i] != ""
    ensures Payloads(lines[..i + 1], clean) == Payloads(lines[..i], clean)
  {
    BlocksStep(lines, i);
  }

  /** What the data variable holds while a block is open. */
  function Held(lines: seq<string>, clean: string -> string): string {
    var data := LastOf(DATA, BlocksOf(lines).open);
    if data.Some? then clean(data.value) else ""
  }

  lemma HeldStep(lines: seq<string>, i: nat, clean: string -> string)
    requires i < |lines|
    ensures Held(lines[..i + 1], clean) ==
      if lines[i] == "" then ""
      else if DATA <= lines[i] then clean(lines[i][|DATA|..])
      else Held(lines[..i], clean)
  {
    BlocksStep(lines, i);
    LastOfStep(DATA, BlocksOf(lines[..i]).open, lines[i]);
  }

  /** The lines that hand one event over; they stand alike in all three readers. */
  method Dispatch<E>(client: Client<E>, data: string, before: seq<E>) returns (delivered: seq<E>, outcome: Outcome)
    ensures Result(delivered, outcome) == Deliver(client, [data], before)
  {
    delivered := before;
    match client.decode(data) {
      case None =>
        return before, BadData;
      case Some(event) =>
        delivered := delivered + [event];
        if !client.callback(delivered) {
          return delivered, CallbackFailed;
        }
        if client.terminal(event) {
          return delivered, StreamError;
        }
        outcome := Finished;
    }
  }

  // ---- The agent client ----

  method ProcessAgentLines<E>(lines: seq<string>, readError: bool, client: Client<E>, trim: string -> string)
    returns (result: Result<E>)
    ensures result == Closed(Deliver(client, Payloads(lines, trim), []), readError)
  {
    var delivered, data := [], "";
    for i := 0 to |lines|
      invariant Deliver(client, Payloads(lines[..i], trim), []) == Result(delivered, Finished)
      invariant data == Held(lines[..i], trim)
    {
      var line := lines[i];
      HeldStep(lines, i, trim);
      if line == "" {
        EmptyLineDelivers(lines, i, trim, client, delivered);
        if data != "" {
          var outcome;
          delivered, outcome := Dispatch(client, data, delivered);
          if !outcome.Finished? {
            EndedEarly(lines, i + 1, trim, client);
            return Result(delivered, outcome);
          }
          data := "";
        }
        continue;
      }
      OtherLineWaits(lines, i, trim);
      if EVENT <= line {
        assert line[0] == 'e';
        continue;
      }
      if DATA <= line {
        data := trim(line[|DATA|..]);
      }
    }
    assert lines[..|lines|] == lines;
    result := if readError then Result(delivered, ReadFailed) else Result(delivered, Finished);
  }

  method ProcessAgentStream<E>(lines: seq<string>, readError: bool, client: Client<E>) returns (result: Result<E>)
    ensures result == Closed(Deliver(client, Payloads(lines, TrimSpace), []), readError)
  {
    result := ProcessAgentLines(lines, readError, client, TrimSpace);
  }

  // ---- A knowledge question ----

  method KnowledgeQaStream<E>(lines: seq<string>, readError: bool, client: Client<E>) returns (result: Result<E>)
    ensures result == Closed(Deliver(client, Payloads(lines, Same), []), readError)
  {
    var delivered, data, eventType := [], "", "";
    for i := 0 to |lines|
      invariant Deliver(client, Payloads(lines[..i], Same), []) == Result(delivered, Finished)
      invariant data == Held(lines[..i], Same)
    {
      var line := lines[i];
      HeldStep(lines, i, Same);
      if line == "" {
        EmptyLineDelivers(lines, i, Same, client, delivered);
        if data != "" {
          var outcome;
          delivered, outcome := Dispatch(client, data, delivered);
          if !outcome.Finished? {
            EndedEarly(lines, i + 1, Same, client);
            return Result(delivered, outcome);
          }
          data, eventType := "", "";
        }
        continue;
      }
      OtherLineWaits(lines, i, Same);
      if EVENT <= line {
        eventType := line[|EVENT|..];
      }
      if DATA <= line {
        data := line[|DATA|..];
      }
    }
    assert lines[..|lines|] == lines;
    result := if readError then Result(delivered, ReadFailed) else Result(delivered, Finished);
  }

  // ---- Continuing a stream ----

  const MESSAGE: string := "message"

  /** What the reader has handed over after some blocks, and what it still holds: unlike the other
      two, it keeps data and event name until they are handed over. */
  datatype Carry = Carry(payloads: seq<string>, data: string, event: string)

  function EndBlock(payloads: seq<string>, data: string, event: string): Carry {
    if data != "" && event == MESSAGE then Carry(payloads + [data], "", "") else Carry(payloads, data, event)
  }

  function AfterBlock(c: Carry, block: seq<string>): Carry {
    EndBlock(c.payloads, OrElse(LastOf(DATA, block), c.data), OrElse(LastOf(EVENT, block), c.event))
  }

  function AfterBlocks(blocks: seq<seq<string>>): Carry {
    if blocks == [] then Carry([], "", "") else AfterBlock(AfterBlocks(blocks[..|blocks| - 1]), blocks[|blocks| - 1])
  }

  function ContinuePayloads(lines: seq<string>): seq<string> { AfterBlocks(BlocksOf(lines).complete).payloads }

  /** The loop variables in the middle of a block. */
  function Holding(lines: seq<string>): Carry {
    var c, open := AfterBlocks(BlocksOf(lines).complete), BlocksOf(lines).open;
    Carry(c.payloads, OrElse(LastOf(DATA, open), c.data), OrElse(LastOf(EVENT, open), c.event))
  }

  lemma AfterBlocksSnoc(blocks: seq<seq<string>>, block: seq<string>)
    ensures AfterBlocks(blocks + [block]) == AfterBlock(AfterBlocks(blocks), block)
  {
    assert (blocks + [block])[..|blocks|] == blocks;
  }

  lemma HoldingStep(lines: seq<string>, i: nat)
    requires i < |lines|
    ensures var h, line := Holding(lines[..i]), lines[i];
      Holding(lines[..i + 1]) ==
        if line == "" then EndBlock(h.payloads, h.data, h.event)
        else Carry(h.payloads,
                   if DATA <= line then line[|DATA|..] else h.data,
                   if EVENT <= line then line[|EVENT|..] else h.event)
  {
    var b := BlocksOf(lines[..i]);
    BlocksStep(lines, i);
    AfterBlocksSnoc(b.complete, b.open);
    LastOfStep(DATA, b.open, lines[i]);
    LastOfStep(EVENT, b.open, lines[i]);
  }

  lemma {:induction false} AfterBlocksGrow(a: seq<seq<string>>, b: seq<seq<string>>)
    requires a <= b
    ensures AfterBlocks(a).payloads <= AfterBlocks(b).payloads
  {
    if a != b {
      AfterBlocksGrow(a, b[..|b| - 1]);
    }
  }

  lemma ContinueEndedEarly<E>(lines: seq<string>, i: nat, client: Client<E>)
    requires i <= |lines| && !Deliver(client, ContinuePayloads(lines[..i]), []).outcome.Finished?
    ensures Deliver(client, ContinuePayloads(lines), []) == Deliver(client, ContinuePayloads(lines[..i]), [])
  {
    BlocksGrow(lines, i);
    AfterBlocksGrow(BlocksOf(lines[..i]).complete, BlocksOf(lines).complete);
    EndedPrefix(client, ContinuePayloads(lines[..i]), ContinuePayloads(lines));
  }

  method ContinueStream<E>(lines: seq<string>, readError: bool, client: Client<E>) returns (result: Result<E>)
    ensures result == Closed(Deliver(client, ContinuePayloads(lines), []), readError)
  {
    var delivered, data, eventType := [], "", "";
    for i := 0 to |lines|
      invariant Deliver(client, ContinuePayloads(lines[..i]), []) == Result(delivered, Finished)
      invariant Holding(lines[..i]) == Carry(ContinuePayloads(lines[..i]), data, eventType)
    {
      var line := lines[i];
      HoldingStep(lines, i);
      if line == "" {
        if data != "" && eventType == MESSAGE {
          DeliverAppend(client, ContinuePayloads(lines[..i]), [data], []);
          var outcome;
          delivered, outcome := Dispatch(client, data, delivered);
          if !outcome.Finished? {
            ContinueEndedEarly(lines, i + 1, client);
            return Result(delivered, outcome);
          }
          data, eventType := "", "";
        }
        continue;
      }
      if EVENT <= line {
        eventType := line[|EVENT|..];
      }
      if DATA <= line {
        data := line[|DATA|..];
      }
    }
    assert lines[..|lines|] == lines;
    result := if readError then Result(delivered, ReadFailed) else Result(delivered, Finished);
  }

  // ---- How the readers compare ----

  /** The data of a block that is a message by its own event line. */
  function MessagePayload(): seq<string> -> seq<string> {
    (block: seq<string>) => if LastOf(EVENT, block) == Some(MESSAGE) then PayloadOf(Same)(block) else []
  }

  /** A block with a data line and an event line, or with neither. */
  predicate SelfContained(block: seq<string>) { LastOf(DATA, block).Some? == LastOf(EVENT, block).Some? }

  lemma PayloadMeans(clean: string -> string, block: seq<string>)
    ensures PayloadOf(clean)(block) ==
      var data := LastOf(DATA, block);
      if data.None? then [] else var d := clean(data.value); if d == "" then [] else [d]
  {
    var data := LastOf(DATA, block);
    if data.Some? {
      assert clean(data.value) == "" ==> PayloadOf(clean)(block) == [];
    }
  }

  lemma MessagePayloadMeans(block: seq<string>)
    ensures MessagePayload()(block) ==
      var data := LastOf(DATA, block);
      if LastOf(EVENT, block) == Some(MESSAGE) && data.Some? && data.value != "" then [data.value] else []
  {
    PayloadMeans(Same, block);
    assert LastOf(DATA, block).Some? ==> Same(LastOf(DATA, block).value) == LastOf(DATA, block).value;
  }

  /** The lines read since the last block that was a message by its own lines. */
  function Since(blocks: seq<seq<string>>): seq<string> {
    if blocks == [] then [] else
    var front, last := blocks[..|blocks| - 1], blocks[|blocks| - 1];
    if MessagePayload()(last) != [] then [] else Since(front) + last
  }

  /** The lines hold data under the event name `message`, each taken from the last line that has it. */
  predicate MakesMessage(lines: seq<string>) {
    OrElse(LastOf(DATA, lines), "") != "" && LastOf(EVENT, lines) == Some(MESSAGE)
  }

  /** Block k is no message by itself, but becomes one together with the lines read since the last
      message. */
  predicate Joins(blocks: seq<seq<string>>, k: nat)
    requires k < |blocks|
  {
    MakesMessage(Since(blocks[..k]) + blocks[k]) && !MakesMessage(blocks[k])
  }

  ghost predicate NothingJoins(blocks: seq<seq<string>>) {
    forall k :: 0 <= k < |blocks| ==> !Joins(blocks, k)
  }

  lemma {:induction false} LastOfAppend(prefix: string, a: seq<string>, b: seq<string>)
    ensures LastOf(prefix, a + b) == if LastOf(prefix, b).Some? then LastOf(prefix, b) else LastOf(prefix, a)
  {
    if b == [] {
      assert a + b == a;
    } else {
      var front, last := b[..|b| - 1], b[|b| - 1];
      LastOfAppend(prefix, a, front);
      LastOfStep(prefix, a + front, last);
      assert a + b == a + front + [last];
    }
  }

  lemma MessageOfBlock(block: seq<string>)
    ensures MessagePayload()(block) == if MakesMessage(block) then [LastOf(DATA, block).value] else []
  {
    MessagePayloadMeans(block);
  }

  /** What the reader holds when it has delivered block by block so far. */
  function Expected(blocks: seq<seq<string>>): Carry {
    var since := Since(blocks);
    Carry(FlatMap(blocks, MessagePayload()), OrElse(LastOf(DATA, since), ""), OrElse(LastOf(EVENT, since), ""))
  }

  /** Overlaying what is held with a block is the same as looking at all lines since the last message. */
  lemma StepLooksBack(front: seq<seq<string>>, last: seq<string>)
    ensures AfterBlock(Expected(front), last) ==
      var since := Since(front) + last;
      EndBlock(FlatMap(front, MessagePayload()), OrElse(LastOf(DATA, since), ""), OrElse(LastOf(EVENT, since), ""))
  {
    LastOfAppend(DATA, Since(front), last);
    LastOfAppend(EVENT, Since(front), last);
  }

  lemma ExpectedStep(front: seq<seq<string>>, last: seq<string>)
    ensures FlatMap(front + [last], MessagePayload()) == FlatMap(front, MessagePayload()) + MessagePayload()(last)
    ensures Since(front + [last]) == if MakesMessage(last) then [] else Since(front) + last
  {
    assert (front + [last])[..|front|] == front;
    MessageOfBlock(last);
    FlatMapAppend(front, [last], MessagePayload());
    assert FlatMap([last], MessagePayload()) == MessagePayload()(last);
  }

  lemma OwnMessageStep(front: seq<seq<string>>, last: seq<string>)
    requires MakesMessage(last)
    ensures AfterBlock(Expected(front), last) == Expected(front + [last])
  {
    ExpectedStep(front, last);
    MessageOfBlock(last);
    assert Since(front + [last]) == [];
  }

  lemma OtherBlockStep(front: seq<seq<string>>, last: seq<string>)
    requires !MakesMessage(last)
    ensures var c := AfterBlock(Expected(front), last);
      if MakesMessage(Since(front) + last) then |c.payloads| > |FlatMap(front + [last], MessagePayload())|
      else c == Expected(front + [last])
  {
    StepLooksBack(front, last);
    ExpectedStep(front, last);
    MessageOfBlock(last);
    var payloads := FlatMap(front, MessagePayload());
    assert payloads + [] == payloads;
  }

  /** A block that is a message by itself is always delivered. */
  lemma OwnMessageDelivered(c: Carry, block: seq<string>)
    ensures |AfterBlock(c, block).payloads| >= |c.payloads| + |MessagePayload()(block)|
  {
    MessageOfBlock(block);
  }

  lemma JoinsInFront(front: seq<seq<string>>, last: seq<string>)
    ensures NothingJoins(front + [last]) <==> NothingJoins(front) && !Joins(front + [last], |front|)
  {
    var blocks := front + [last];
    forall k | 0 <= k < |front| ensures Joins(blocks, k) == Joins(front, k) {
      assert blocks[..k] == front[..k];
    }
    if NothingJoins(blocks) {
      assert forall k :: 0 <= k < |front| ==> !Joins(blocks, k);
    }
  }

  lemma {:induction false} CarryTracks(blocks: seq<seq<string>>)
    ensures NothingJoins(blocks) ==> AfterBlocks(blocks) == Expected(blocks)
    ensures !NothingJoins(blocks) ==> |AfterBlocks(blocks).payloads| > |FlatMap(blocks, MessagePayload())|
  {
    if blocks != [] {
      var front, last := blocks[..|blocks| - 1], blocks[|blocks| - 1];
      assert blocks == front + [last] && blocks[..|front|] == front;
      CarryTracks(front);
      JoinsInFront(front, last);
      ExpectedStep(front, last);
      if NothingJoins(front) && MakesMessage(last) {
        OwnMessageStep(front, last);
      } else if NothingJoins(front) {
        OtherBlockStep(front, last);
      } else {
        OwnMessageDelivered(AfterBlocks(front), last);
      }
    }
  }

  /** Continuing delivers exactly the blocks that are messages by their own lines, if and only if no
      other block becomes a message together with the lines read since the last message. */
  lemma ContinueIsBlockwiseIff(lines: seq<string>)
    ensures ContinuePayloads(lines) == FlatMap(BlocksOf(lines).complete, MessagePayload())
            <==> NothingJoins(BlocksOf(lines).complete)
  {
    CarryTracks(BlocksOf(lines).complete);
  }

  lemma SelfContainedSince(front: seq<string>, last: seq<string>)
    requires SelfContained(front) && !MakesMessage(front) && SelfContained(last)
    ensures SelfContained(front + last) && MakesMessage(front + last) == MakesMessage(last)
  {
    LastOfAppend(DATA, front, last);
    LastOfAppend(EVENT, front, last);
  }

  lemma {:induction false} SelfContainedJoinNothing(blocks: seq<seq<string>>)
    requires forall k :: 0 <= k < |blocks| ==> SelfContained(blocks[k])
    ensures SelfContained(Since(blocks)) && !MakesMessage(Since(blocks)) && NothingJoins(blocks)
  {
    if blocks != [] {
      var front, last := blocks[..|blocks| - 1], blocks[|blocks| - 1];
      assert blocks == front + [last];
      SelfContainedJoinNothing(front);
      SelfContainedSince(Since(front), last);
      ExpectedStep(front, last);
      JoinsInFront(front, last);
      assert blocks[..|front|] == front;
    }
  }

  /** On a stream whose blocks have both lines or neither, continuing delivers block by block, leaving
      out the blocks whose own event is not `message`. */
  lemma ContinueIsBlockwise(lines: seq<string>)
    requires forall k :: 0 <= k < |BlocksOf(lines).complete| ==> SelfContained(BlocksOf(lines).complete[k])
    ensures ContinuePayloads(lines) == FlatMap(BlocksOf(lines).complete, MessagePayload())
  {
    SelfContainedJoinNothing(BlocksOf(lines).complete);
    ContinueIsBlockwiseIff(lines);
  }

  /** Data and event name of different blocks are combined otherwise: here neither block is a
      message with data, yet one is delivered. */
  lemma StaleDataIsDelivered(data: string)
    requires data != ""
    ensures var lines := [DATA + data, "", EVENT + MESSAGE, ""];
      ContinuePayloads(lines) == [data] && FlatMap(BlocksOf(lines).complete, MessagePayload()) == []
  {
    var first, second := [DATA + data], [EVENT + MESSAGE];
    TwoOneLineBlocks(DATA + data, EVENT + MESSAGE);
    PrefixesDiffer(DATA + data);
    PrefixesDiffer(EVENT + MESSAGE);
    OneLine(DATA + data);
    OneLine(EVENT + MESSAGE);
    StaleCarry(first, second, data);
    StalePayloads(first, second);
  }

  lemma StaleCarry(first: seq<string>, second: seq<string>, data: string)
    requires data != "" && LastOf(DATA, first) == Some(data) && LastOf(EVENT, first).None?
    requires LastOf(DATA, second).None? && LastOf(EVENT, second) == Some(MESSAGE)
    ensures AfterBlocks([] + [first] + [second]).payloads == [data]
  {
    AfterBlocksSnoc([], first);
    AfterBlocksSnoc([] + [first], second);
  }

  lemma TwoOneLineBlocks(a: string, b: string)
    requires a != "" && b != ""
    ensures BlocksOf([a, "", b, ""]).complete == [] + [[a]] + [[b]]
  {
    BlocksSnoc([], a);
    BlocksSnoc([a], "");
    BlocksSnoc([a] + [""], b);
    BlocksSnoc([a] + [""] + [b], "");
    assert [a, "", b, ""] == [a] + [""] + [b] + [""] && [] + [a] == [a] && [] + [b] == [b];
  }

  lemma PrefixesDiffer(line: string)
    ensures !(DATA <= line && EVENT <= line)
  {
    assert DATA[0] != EVENT[0];
  }

  lemma OneLine(line: string)
    ensures LastOf(DATA, [line]) == if DATA <= line then Some(line[|DATA|..]) else None
    ensures LastOf(EVENT, [line]) == if EVENT <= line then Some(line[|EVENT|..]) else None
  {
    LastOfStep(DATA, [], line);
    LastOfStep(EVENT, [], line);
    assert [] + [line] == [line];
  }

  lemma StalePayloads(first: seq<string>, second: seq<string>)
    requires LastOf(EVENT, first).None? && LastOf(DATA, second).None?
    ensures FlatMap([] + [first] + [second], MessagePayload()) == []
  {
    MessagePayloadMeans(first);
    MessagePayloadMeans(second);
    FlatMapStep([first, second], 0, MessagePayload());
    FlatMapStep([first, second], 1, MessagePayload());
    assert [] + [first] + [second] == [first, second][..2];
  }

  lemma {:induction false} LastOfIsLine(prefix: string, lines: seq<string>)
    ensures LastOf(prefix, lines).Some? ==> prefix + LastOf(prefix, lines).value in lines
  {
    if lines != [] {
      var last := lines[|lines| - 1];
      LastOfIsLine(prefix, lines[..|lines| - 1]);
      assert prefix <= last ==> prefix + last[|prefix|..] == last;
    }
  }

  ghost predicate Without(lines: seq<string>, line: string) { line !in lines }

  lemma {:induction false} BlocksWithout(lines: seq<string>, line: string)
    requires Without(lines, line)
    ensures Without(BlocksOf(lines).open, line)
    ensures forall k :: 0 <= k < |BlocksOf(lines).complete| ==> Without(BlocksOf(lines).complete[k], line)
  {
    if lines != [] {
      var front, last := lines[..|lines| - 1], lines[|lines| - 1];
      assert Without(front, line);
      BlocksWithout(front, line);
      assert last in lines;
      assert Without(BlocksOf(front).open + [last], line);
      var complete := BlocksOf(lines).complete;
      forall k | 0 <= k < |complete| ensures Without(complete[k], line) {
        assert k < |BlocksOf(front).complete| ==> complete[k] == BlocksOf(front).complete[k];
      }
    }
  }

  lemma {:induction false} NoMessageNoPayload(blocks: seq<seq<string>>)
    requires forall k :: 0 <= k < |blocks| ==> Without(blocks[k], EVENT + MESSAGE)
    ensures AfterBlocks(blocks).payloads == [] && AfterBlocks(blocks).event != MESSAGE
  {
    if blocks != [] {
      NoMessageNoPayload(blocks[..|blocks| - 1]);
      assert Without(blocks[|blocks| - 1], EVENT + MESSAGE);
      LastOfIsLine(EVENT, blocks[|blocks| - 1]);
    }
  }

  /** Continuing delivers nothing from a stream that spells its event lines in any other way than
      `event:message`, for example with the space after the colon that the standard allows. */
  lemma OtherSpellingDeliversNothing(lines: seq<string>)
    requires "event:message" !in lines
    ensures ContinuePayloads(lines) == []
  {
    assert EVENT + MESSAGE == "event:message";
    BlocksWithout(lines, EVENT + MESSAGE);
    NoMessageNoPayload(BlocksOf(lines).complete);
  }

  // ---- Where trimming shows ----

  /** Lists that are put together block by block, at most one element each and never more in the first,
      agree if and only if they agree in every block. */
  lemma {:induction false} AgreeBlockByBlock<T, U>(blocks: seq<T>, f: T -> seq<U>, g: T -> seq<U>)
    requires forall b :: |f(b)| <= |g(b)|
    ensures |FlatMap(blocks, f)| <= |FlatMap(blocks, g)|
    ensures FlatMap(blocks, f) == FlatMap(blocks, g) <==> forall k :: 0 <= k < |blocks| ==> f(blocks[k]) == g(blocks[k])
  {
    if blocks != [] {
      AgreeBlockByBlock(blocks[1..], f, g);
      HeadsAgree(f(blocks[0]), g(blocks[0]), FlatMap(blocks[1..], f), FlatMap(blocks[1..], g));
    }
  }

  lemma HeadsAgree<U>(a: seq<U>, b: seq<U>, x: seq<U>, y: seq<U>)
    requires |a| <= |b| && |x| <= |y|
    ensures a + x == b + y <==> a == b && x == y
  {
    if a + x == b + y {
      assert |a| == |b|;
      assert a == (a + x)[..|a|] && b == (b + y)[..|b|];
      assert x == (a + x)[|a|..] && y == (b + y)[|b|..];
    }
  }

  /** The block has no data, or data that the cleaning leaves alone. */
  predicate Clean(clean: string -> string, block: seq<string>) {
    var data := LastOf(DATA, block);
    data.Some? ==> clean(data.value) == data.value
  }

  predicate AllClean(clean: string -> string, blocks: seq<seq<string>>) {
    forall k :: 0 <= k < |blocks| ==> Clean(clean, blocks[k])
  }

  /** The agent client and the knowledge question read the same data from a stream if and only if no
      complete block has data that trimming changes. */
  lemma AgentReadsAsQaIff(lines: seq<string>)
    ensures Payloads(lines, TrimSpace) == Payloads(lines, Same) <==> AllClean(TrimSpace, BlocksOf(lines).complete)
  {
    CleaningShows(lines, TrimSpace);
  }

  /** Any cleaning that maps empty data to itself shows exactly where it changes the data of a block. */
  lemma CleaningShows(lines: seq<string>, clean: string -> string)
    requires clean("") == ""
    ensures Payloads(lines, clean) == Payloads(lines, Same) <==> AllClean(clean, BlocksOf(lines).complete)
  {
    var cleaned, raw := PayloadOf(clean), PayloadOf(Same);
    forall block
      ensures |cleaned(block)| <= |raw(block)| && (cleaned(block) == raw(block) <==> Clean(clean, block))
    {
      CleanedPayload(block, clean);
    }
    AgreeBlockByBlock(BlocksOf(lines).complete, cleaned, raw);
  }

  lemma CleanedPayload(block: seq<string>, clean: string -> string)
    requires clean("") == ""
    ensures |PayloadOf(clean)(block)| <= |PayloadOf(Same)(block)|
    ensures PayloadOf(clean)(block) == PayloadOf(Same)(block) <==> Clean(clean, block)
  {
    PayloadMeans(clean, block);
    PayloadMeans(Same, block);
    if LastOf(DATA, block).Some? {
      assert Same(LastOf(DATA, block).value) == LastOf(DATA, block).value;
    }
  }

  /** Data that is a single space: an event to the knowledge question, none to the agent client. */
  lemma BlankDataDiffers()
    ensures Payloads(["data: ", ""], Same) == [" "] && Payloads(["data: ", ""], TrimSpace) == []
  {
    var line := "data: ";
    assert line == DATA + " ";
    BlocksSnoc([], line);
    BlocksSnoc([line], "");
    assert [] + [line] == [line] && [line] + [""] == [line, ""];
    LastOfStep(DATA, [], line);
    PayloadMeans(Same, [line]);
    PayloadMeans(TrimSpace, [line]);
    assert Same(" ") == " " && TrimSpace(" ") == "";
    assert BlocksOf([line, ""]).complete == [[line]];
    assert FlatMap([[line]], PayloadOf(Same)) == PayloadOf(Same)([line]) + [];
    assert FlatMap([[line]], PayloadOf(TrimSpace)) == PayloadOf(TrimSpace)([line]) + [];
  }

  /** The client decodes trimmed and untrimmed data alike. */
  ghost predicate TrimDoesNotMatter<E>(client: Client<E>, data: string) {
    (TrimSpace(data) == "" <==> data == "") && client.decode(TrimSpace(data)) == client.decode(data)
  }

  /** The agent client and the knowledge question deliver the same from every stream whose data does
      not need trimming to be decoded. */
  lemma {:induction false} AgentAgreesWithQa<E>(client: Client<E>, blocks: seq<seq<string>>, before: seq<E>)
    requires forall k :: 0 <= k < |blocks| && LastOf(DATA, blocks[k]).Some? ==>
      TrimDoesNotMatter(client, LastOf(DATA, blocks[k]).value)
    ensures Deliver(client, FlatMap(blocks, PayloadOf(TrimSpace)), before)
         == Deliver(client, FlatMap(blocks, PayloadOf(Same)), before)
  {
    if blocks != [] {
      var rest := blocks[1..];
      BlockAgrees(client, blocks[0], before);
      DeliverAppend(client, PayloadOf(TrimSpace)(blocks[0]), FlatMap(rest, PayloadOf(TrimSpace)), before);
      DeliverAppend(client, PayloadOf(Same)(blocks[0]), FlatMap(rest, PayloadOf(Same)), before);
      AgentAgreesWithQa(client, rest, Deliver(client, PayloadOf(Same)(blocks[0]), before).delivered);
    }
  }

  lemma BlockAgrees<E>(client: Client<E>, block: seq<string>, before: seq<E>)
    requires LastOf(DATA, block).Some? ==> TrimDoesNotMatter(client, LastOf(DATA, block).value)
    ensures Deliver(client, PayloadOf(TrimSpace)(block), before) == Deliver(client, PayloadOf(Same)(block), before)
  {
    PayloadMeans(TrimSpace, block);
    PayloadMeans(Same, block);
    if LastOf(DATA, block).Some? {
      var data := LastOf(DATA, block).value;
      assert Same(data) == data;
      assert Deliver(client, [(TrimSpace(data))], before) == Deliver(client, [data], before);
    }
  }

  // ---- Streams as the server writes them ----

  datatype Frame = Frame(event: string, data: string)

  function Body(f: Frame): seq<string> { [EVENT + f.event, DATA + f.data] }

  function Written(): Frame -> seq<string> { (f: Frame) => Body(f) + [""] }

  function DataOf(f: Frame): string { f.data }

  function IsMessage(f: Frame): bool { f.event == MESSAGE }

  lemma BodyMeans(f: Frame)
    ensures LastOf(DATA, Body(f)) == Some(f.data) && LastOf(EVENT, Body(f)) == Some(f.event)
  {
    LastOfStep(DATA, [EVENT + f.event], DATA + f.data);
    LastOfStep(EVENT, [EVENT + f.event], DATA + f.data);
    LastOfStep(EVENT, [], EVENT + f.event);
    assert [] + [EVENT + f.event] == [EVENT + f.event];
    assert [EVENT + f.event] + [DATA + f.data] == Body(f);
    PrefixesDiffer(DATA + f.data);
  }

  lemma BlockOfTwo(lines: seq<string>, complete: seq<seq<string>>, first: string, second: string)
    requires BlocksOf(lines) == Blocks(complete, []) && first != "" && second != ""
    ensures BlocksOf(lines + ([first, second] + [""])) == Blocks(complete + [[first, second]], [])
  {
    BlocksSnoc(lines, first);
    BlocksSnoc(lines + [first], second);
    BlocksSnoc(lines + [first] + [second], "");
    assert lines + ([first, second] + [""]) == lines + [first] + [second] + [""];
    assert [] + [first] + [second] == [first, second];
  }

  lemma FrameBlock(lines: seq<string>, complete: seq<seq<string>>, f: Frame)
    requires BlocksOf(lines) == Blocks(complete, [])
    ensures BlocksOf(lines + Written()(f)) == Blocks(complete + [Body(f)], [])
  {
    BlockOfTwo(lines, complete, EVENT + f.event, DATA + f.data);
  }

  lemma {:induction false} WrittenBlocks(frames: seq<Frame>)
    ensures BlocksOf(FlatMap(frames, Written())) == Blocks(Map(frames, Body), [])
  {
    if frames != [] {
      var front, f := frames[..|frames| - 1], frames[|frames| - 1];
      assert frames == front + [f];
      WrittenBlocks(front);
      FlatMapAppend(front, [f], Written());
      assert FlatMap([f], Written()) == Written()(f);
      FrameBlock(FlatMap(front, Written()), Map(front, Body), f);
      assert Map(frames, Body) == Map(front, Body) + [Body(f)];
    }
  }

  lemma {:induction false} OpenTailWaits(lines: seq<string>, tail: seq<string>)
    requires "" !in tail
    ensures BlocksOf(lines + tail).complete == BlocksOf(lines).complete
  {
    if tail == [] {
      assert lines + tail == lines;
    } else {
      var front, last := tail[..|tail| - 1], tail[|tail| - 1];
      OpenTailWaits(lines, front);
      BlocksSnoc(lines + front, last);
      assert lines + tail == lines + front + [last];
    }
  }

  lemma FramePayload(f: Frame)
    requires f.data != ""
    ensures PayloadOf(Same)(Body(f)) == [f.data]
    ensures MessagePayload()(Body(f)) == if IsMessage(f) then [f.data] else []
  {
    BodyMeans(f);
    PayloadMeans(Same, Body(f));
    MessagePayloadMeans(Body(f));
    assert Same(f.data) == f.data;
  }

  lemma MapTail<T, U>(s: seq<T>, f: T -> U)
    requires s != []
    ensures Map(s, f) == [f(s[0])] + Map(s[1..], f)
  {
  }

  lemma {:induction false} FramePayloads(frames: seq<Frame>)
    requires forall k :: 0 <= k < |frames| ==> frames[k].data != ""
    ensures FlatMap(Map(frames, Body), PayloadOf(Same)) == Map(frames, DataOf)
  {
    if frames != [] {
      FramePayload(frames[0]);
      FramePayloads(frames[1..]);
      MapTail(frames, Body);
      MapTail(frames, DataOf);
    }
  }

  lemma {:induction false} MessagePayloads(frames: seq<Frame>)
    requires forall k :: 0 <= k < |frames| ==> frames[k].data != ""
    ensures FlatMap(Map(frames, Body), MessagePayload()) == Map(Filter(frames, IsMessage), DataOf)
  {
    if frames != [] {
      FramePayload(frames[0]);
      MessagePayloads(frames[1..]);
      MapTail(frames, Body);
      if IsMessage(frames[0]) {
        MapTail([frames[0]] + Filter(frames[1..], IsMessage), DataOf);
        assert ([frames[0]] + Filter(frames[1..], IsMessage))[1..] == Filter(frames[1..], IsMessage);
      }
    }
  }

  /** All three readers on a stream of written frames, followed by lines of a frame cut off: the
      first two deliver the data of every frame in order, the third that of the messages, and what
      was cut off is discarded. */
  lemma ReadersOnWrittenStream<E>(client: Client<E>, frames: seq<Frame>, tail: seq<string>)
    requires "" !in tail
    requires forall k :: 0 <= k < |frames| ==> frames[k].data != ""
    ensures var lines := FlatMap(frames, Written()) + tail;
      && Payloads(lines, Same) == Map(frames, DataOf)
      && ContinuePayloads(lines) == Map(Filter(frames, IsMessage), DataOf)
      && ((forall k :: 0 <= k < |frames| ==> TrimDoesNotMatter(client, frames[k].data)) ==>
            Deliver(client, Payloads(lines, TrimSpace), []) == Deliver(client, Map(frames, DataOf), []))
  {
    var lines := FlatMap(frames, Written()) + tail;
    OpenTailWaits(FlatMap(frames, Written()), tail);
    WrittenBlocks(frames);
    FramePayloads(frames);
    MessagePayloads(frames);
    var blocks := Map(frames, Body);
    forall k | 0 <= k < |blocks|
      ensures LastOf(DATA, blocks[k]) == Some(frames[k].data) && LastOf(EVENT, blocks[k]) == Some(frames[k].event)
    {
      BodyMeans(frames[k]);
    }
    if forall k :: 0 <= k < |frames| ==> TrimDoesNotMatter(client, frames[k].data) {
      AgentAgreesWithQa(client, blocks, []);
    }
    ContinueIsBlockwise(lines);
  }
}
