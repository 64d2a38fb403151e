/** What the event-stream standard makes of a block of lines, and when the readers agree with it. */
module SseStandard {
  import opened Options
  import opened Seqs
  import opened Strings
  import opened SseReaders

  // Section 9.2.6 of the WHATWG HTML standard: a line is a field name, a colon and a value, and one
  // space behind the colon does not belong to the value; a line without a colon is a field name with
  // an empty value. The values of all `data` fields of a block are joined with newlines; a block
  // without a `data` field is no event; the event name is that of the last `event` field, and
  // `message` when that is empty or missing. The lines of a block contain no newline.

  function Unspaced(value: string): string { if value != "" && value[0] == ' ' then value[1..] else value }

  /** The value of a line for a field, if the line is about that field. */
  function FieldValue(name: string, line: string): Option<string> {
    if line == name then Some("")
    else if name + ":" <= line then Some(Unspaced(line[|name| + 1..]))
    else None
  }

  function Values(name: string): string -> seq<string> {
    (line: string) => if FieldValue(name, line).Some? then [FieldValue(name, line).value] else []
  }

  function FieldValues(name: string, block: seq<string>): seq<string> { FlatMap(block, Values(name)) }

  const DATA_FIELD: string := "data"
  const EVENT_FIELD: string := "event"

  /** The data of the event that the block stands for, if it stands for one. */
  function StandardPayload(block: seq<string>): seq<string> {
    var values := FieldValues(DATA_FIELD, block);
    if values == [] then [] else [Join(values, "\n")]
  }

  predicate StandardMessage(block: seq<string>) {
    var names := FieldValues(EVENT_FIELD, block);
    names == [] || names[|names| - 1] in {"", MESSAGE}
  }

  // ---- Data ----

  lemma ValuesSnoc(name: string, block: seq<string>, line: string)
    ensures FieldValues(name, block + [line]) == FieldValues(name, block) + Values(name)(line)
  {
    FlatMapAppend(block, [line], Values(name));
    assert FlatMap([line], Values(name)) == Values(name)(line);
  }

  lemma DataLineIsField(line: string)
    ensures DATA <= line ==> FieldValue(DATA_FIELD, line) == Some(Unspaced(line[|DATA|..]))
    ensures EVENT <= line ==> FieldValue(EVENT_FIELD, line) == Some(Unspaced(line[|EVENT|..]))
    ensures FieldValue(DATA_FIELD, line).Some? && !(DATA <= line) ==> FieldValue(DATA_FIELD, line) == Some("")
    ensures FieldValue(EVENT_FIELD, line).Some? && !(EVENT <= line) ==> FieldValue(EVENT_FIELD, line) == Some("")
  {
    assert DATA_FIELD + ":" == DATA && EVENT_FIELD + ":" == EVENT;
  }

  /** A reader that finds a `data:` line finds one of the values, spaced as written. */
  lemma {:induction false} LastIsAmongValues(block: seq<string>)
    ensures LastOf(DATA, block).Some? ==> Unspaced(LastOf(DATA, block).value) in FieldValues(DATA_FIELD, block)
    ensures LastOf(DATA, block).None? ==> forall v :: v in FieldValues(DATA_FIELD, block) ==> v == ""
    ensures forall v :: LastOf(DATA, block) == Some(v) ==> DATA + v in block
  {
    if block != [] {
      var front, last := block[..|block| - 1], block[|block| - 1];
      assert block == front + [last];
      LastIsAmongValues(front);
      ValuesSnoc(DATA_FIELD, front, last);
      DataLineIsField(last);
      assert DATA <= last ==> DATA + last[|DATA|..] == last;
    }
  }

  lemma JoinedHasNewline(values: seq<string>)
    requires |values| >= 2
    ensures '\n' in Join(values, "\n")
  {
    var rest := Join(values[1..], "\n");
    assert Join(values, "\n")[|values[0]|] == '\n';
  }

  lemma {:induction false} ValueHasNoNewline(block: seq<string>)
    requires forall k :: 0 <= k < |block| ==> '\n' !in block[k]
    ensures LastOf(DATA, block).Some? ==> '\n' !in LastOf(DATA, block).value
  {
    if block != [] {
      ValueHasNoNewline(block[..|block| - 1]);
    }
  }

  /** A reader that cleans the data by itself agrees with the standard only when there is no data, or
      one data field whose value needs no other cleaning. */
  lemma CleanedAsStandard(block: seq<string>, clean: string -> string)
    requires forall k :: 0 <= k < |block| ==> '\n' !in block[k]
    requires LastOf(DATA, block).Some? ==> '\n' !in clean(LastOf(DATA, block).value)
    ensures var values, data := FieldValues(DATA_FIELD, block), LastOf(DATA, block);
      PayloadOf(clean)(block) == StandardPayload(block) <==>
      || values == []
      || (|values| == 1 && data.Some? && clean(data.value) != "" && clean(data.value) == Unspaced(data.value))
  {
    PayloadMeans(clean, block);
    LastIsAmongValues(block);
    if |FieldValues(DATA_FIELD, block)| >= 2 {
      JoinedHasNewline(FieldValues(DATA_FIELD, block));
    }
  }

  /** The knowledge question reads the data of a block as the standard says, if and only if the block
      has no data field or exactly one, a `data:` line with a value that does not start with a space. */
  lemma QaDataAsStandardIff(block: seq<string>)
    requires forall k :: 0 <= k < |block| ==> '\n' !in block[k]
    ensures var values, data := FieldValues(DATA_FIELD, block), LastOf(DATA, block);
      PayloadOf(Same)(block) == StandardPayload(block) <==>
      values == [] || (|values| == 1 && data.Some? && data.value != "" && data.value[0] != ' ')
  {
    ValueHasNoNewline(block);
    CleanedAsStandard(block, Same);
    if LastOf(DATA, block).Some? {
      var v := LastOf(DATA, block).value;
      assert Same(v) == v;
      assert |Unspaced(v)| < |v| <==> v != "" && v[0] == ' ';
    }
  }

  lemma TrimMembers(s: string)
    ensures forall c :: c in TrimSpace(s) ==> c in s
  {
  }

  predicate Bordered(s: string) { s != "" && !GoSpace(s[0]) && !GoSpace(s[|s| - 1]) }

  lemma TrimOfSpaced(s: string)
    requires s != "" && s[0] == ' '
    ensures TrimSpace(s) == TrimSpace(s[1..])
  {
    assert Span(s, GoSpace) == 1 + Span(s[1..], GoSpace);
  }

  lemma TrimIsWhole(s: string)
    ensures TrimSpace(s) == s <==> s == "" || Bordered(s)
  {
    if s == "" || Bordered(s) {
      SpanIs(s, GoSpace, 0);
      RStripIs(s, GoSpace, s);
    }
  }

  /** The agent client does so if and only if the block has no data field or exactly one, a `data:` line
      whose value, without one space in front, is not empty and has no white space at its ends. */
  lemma AgentDataAsStandardIff(block: seq<string>)
    requires forall k :: 0 <= k < |block| ==> '\n' !in block[k]
    ensures var values, data := FieldValues(DATA_FIELD, block), LastOf(DATA, block);
      PayloadOf(TrimSpace)(block) == StandardPayload(block) <==>
      values == [] || (|values| == 1 && data.Some? && Bordered(Unspaced(data.value)))
  {
    ValueHasNoNewline(block);
    if LastOf(DATA, block).Some? {
      var v := LastOf(DATA, block).value;
      TrimMembers(v);
      if v != "" && v[0] == ' ' {
        TrimOfSpaced(v);
      }
      TrimIsWhole(Unspaced(v));
    }
    CleanedAsStandard(block, TrimSpace);
  }

  /** Two lines of data: the standard joins them, the readers keep the second. */
  lemma TwoDataLines()
    ensures PayloadOf(Same)([DATA + "a", DATA + "b"]) == ["b"]
    ensures StandardPayload([DATA + "a", DATA + "b"]) == ["a\nb"]
  {
    var first, second := DATA + "a", DATA + "b";
    LastOfStep(DATA, [first], second);
    assert [first] + [second] == [first, second];
    PayloadMeans(Same, [first, second]);
    DataLineIsField(first);
    DataLineIsField(second);
    ValuesSnoc(DATA_FIELD, [], first);
    ValuesSnoc(DATA_FIELD, [first], second);
    assert [] + [first] == [first];
    assert FieldValues(DATA_FIELD, [first, second]) == ["a", "b"];
    assert ["a", "b"][1..] == ["b"];
    assert Join(["a", "b"], "\n") == "a" + "\n" + "b" == "a\nb";
  }

  // ---- Event name ----

  /** The last line of the block about the event name is `event` without a colon. */
  predicate BareLast(block: seq<string>) {
    block != [] &&
    var last := block[|block| - 1];
    last == EVENT_FIELD || (!(EVENT <= last) && BareLast(block[..|block| - 1]))
  }

  /** The standard's event name is the text of the last `event:` line without one leading space, unless a
      bare `event` line follows: then it is empty. */
  lemma {:induction false} LastName(block: seq<string>)
    ensures var names, raw := FieldValues(EVENT_FIELD, block), LastOf(EVENT, block);
      if BareLast(block) then names != [] && names[|names| - 1] == ""
      else if raw.None? then names == []
      else names != [] && names[|names| - 1] == Unspaced(raw.value)
  {
    if block != [] {
      var front, last := block[..|block| - 1], block[|block| - 1];
      assert block == front + [last];
      LastName(front);
      ValuesSnoc(EVENT_FIELD, front, last);
      DataLineIsField(last);
      assert EVENT_FIELD + ":" == EVENT;
    }
  }

  lemma UnspacedIs(value: string, name: string)
    requires name == "" || name[0] != ' '
    ensures Unspaced(value) == name <==> value == name || value == [' '] + name
  {
    var spaced := [' '] + name;
    assert spaced[0] == ' ' && spaced[1..] == name;
    if value != "" && value[0] == ' ' {
      assert value == [' '] + value[1..];
    }
  }

  /** The reader that continues a stream takes no block for a message that the standard does not. It
      misses one if and only if the text of the last `event:` line is missing, empty, one space, or
      `message` behind one space, or is any other than `message` and a bare `event` line comes after it. */
  lemma EventAsStandardIff(block: seq<string>)
    ensures var raw := LastOf(EVENT, block);
      && (raw == Some(MESSAGE) ==> StandardMessage(block))
      && (StandardMessage(block) && raw != Some(MESSAGE) <==>
          || raw in {None, Some(""), Some(" "), Some(" " + MESSAGE)}
          || (BareLast(block) && raw != Some(MESSAGE)))
  {
    LastName(block);
    if LastOf(EVENT, block).Some? {
      UnspacedIs(LastOf(EVENT, block).value, "");
      UnspacedIs(LastOf(EVENT, block).value, MESSAGE);
      assert [' '] + "" == " " && [' '] + MESSAGE == " " + MESSAGE;
    }
  }

  lemma ReadsBlockOfTwo(first: string, second: string)
    requires !(EVENT <= second) && !(DATA <= first) && FieldValue(DATA_FIELD, first).None? && DATA <= second
    ensures LastOf(EVENT, [first, second]) == if EVENT <= first then Some(first[|EVENT|..]) else None
    ensures FieldValues(DATA_FIELD, [first, second]) == [Unspaced(second[|DATA|..])]
  {
    assert [] + [first] == [first] && [first] + [second] == [first, second];
    LastOfStep(EVENT, [], first);
    LastOfStep(EVENT, [first], second);
    ValuesSnoc(DATA_FIELD, [], first);
    ValuesSnoc(DATA_FIELD, [first], second);
    DataLineIsField(second);
  }

  /** The spelling with a space after the colon: a message to the standard, nothing to the reader. */
  lemma SpacedNameIsMissed()
    ensures StandardMessage(["event: message", "data:x"]) && StandardPayload(["event: message", "data:x"]) == ["x"]
    ensures MessagePayload()(["event: message", "data:x"]) == []
  {
    var first, second := "event: message", "data:x";
    SpacedLines(first, second);
    ReadsBlockOfTwo(first, second);
    EventAsStandardIff([first, second]);
    MessagePayloadMeans([first, second]);
  }

  lemma SpacedLines(first: string, second: string)
    requires first == "event: message" && second == "data:x"
    ensures EVENT <= first && first[|EVENT|..] == " " + MESSAGE != MESSAGE
    ensures !(DATA <= first) && FieldValue(DATA_FIELD, first).None?
    ensures !(EVENT <= second) && DATA <= second && Unspaced(second[|DATA|..]) == "x"
  {
    assert first[..|EVENT|] == EVENT && first[|EVENT|..] == " message";
    assert first[0] == 'e' && second[0] == 'd';
    assert second[|DATA|..] == "x";
  }
}
