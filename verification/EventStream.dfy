/** The web client's reader of server-sent events, over a stream cut into arbitrary
    chunks. */
module EventStream {
  import opened Prelude
  import opened Text

  datatype Event = Event(name: string, data: string)

  // ------------------------------------------------------------------ frames

  /** Where the first blank line starts: two line feeds in a row. */
  function Separator(s: string): (k: Option<nat>)
    ensures k.Some? ==>
              k.value + 2 <= |s| && s[k.value] == s[k.value + 1] == '\n'
              && forall i :: 0 <= i < k.value ==> !(s[i] == s[i + 1] == '\n')
    ensures k.None? ==> forall i :: 0 <= i < |s| - 1 ==> !(s[i] == s[i + 1] == '\n')
  {
    if |s| < 2 then None
    else if s[0] == s[1] == '\n' then Some(0)
    else
      var k := Separator(s[1..]);
      if k.None? then None else Some(k.value + 1)
  }

  lemma SeparatorIs(s: string, k: nat)
    requires k + 2 <= |s| && s[k] == s[k + 1] == '\n'
    requires forall i :: 0 <= i < k ==> !(s[i] == s[i + 1] == '\n')
    ensures Separator(s) == Some(k)
  {
  }

  /** The frames that are complete in `s` ... */
  function Frames(s: string): seq<string>
    decreases |s|
  {
    var k := Separator(s);
    if k.None? then [] else [s[..k.value]] + Frames(s[k.value + 2..])
  }

  /** ... and what is left behind the last of them. */
  function Rest(s: string): string
    decreases |s|
  {
    var k := Separator(s);
    if k.None? then s else Rest(s[k.value + 2..])
  }

  // ------------------------------------------------------------------ fields

  const EVENT := "event:"
  const DATA := "data:"

  predicate IsEvent(line: string) {
    EVENT <= line
  }

  predicate IsData(line: string) {
    DATA <= line
  }

  /** The last event field decides. */
  function EventName(lines: seq<string>): string {
    if lines == [] then "message"
    else
      var last := lines[|lines| - 1];
      if IsEvent(last) then Trim(last[6..]) else EventName(lines[..|lines| - 1])
  }

  function DataLines(lines: seq<string>): seq<string> {
    if lines == [] then []
    else
      var last := lines[|lines| - 1];
      DataLines(lines[..|lines| - 1]) + if IsData(last) then [TrimStart(last[5..])] else []
  }

  function Parsed(frame: string): Option<Event> {
    var lines := Split(frame, '\n');
    if DataLines(lines) == [] then None else Some(Event(EventName(lines), Join(DataLines(lines), '\n')))
  }

  method ParseFrame(frame: string) returns (parsed: Option<Event>)
    ensures parsed == Parsed(frame)
  {
    var lines := Split(frame, '\n');
    var event := "message";
    var dataLines: seq<string> := [];
    for i := 0 to |lines|
      invariant event == EventName(lines[..i])
      invariant dataLines == DataLines(lines[..i])
    {
      var line := lines[i];
      assert lines[..i + 1][..i] == lines[..i];
      if line == [] || line[0] == ':' {
        continue;
      }
      if EVENT <= line {
        event := Trim(line[6..]);
      } else if DATA <= line {
        dataLines := dataLines + [TrimStart(line[5..])];
      }
    }
    assert lines[..|lines|] == lines;
    parsed := if dataLines == [] then None else Some(Event(event, Join(dataLines, '\n')));
  }

  function EventOf(frame: string): seq<Event> {
    if Parsed(frame).Some? then [Parsed(frame).value] else []
  }

  /** The events of a list of frames. */
  function Heard(frames: seq<string>): seq<Event> {
    if frames == [] then [] else EventOf(frames[0]) + Heard(frames[1..])
  }

  lemma HeardFirst(frame: string, rest: seq<string>)
    ensures Heard([frame] + rest) == EventOf(frame) + Heard(rest)
  {
    assert ([frame] + rest)[1..] == rest;
  }

  lemma {:induction false} HeardConcat(a: seq<string>, b: seq<string>)
    ensures Heard(a + b) == Heard(a) + Heard(b)
  {
    if a == [] {
      assert a + b == b;
    } else {
      assert a == [a[0]] + a[1..];
      hide *;
      HeardFirst(a[0], a[1..]);
      HeardConcat(a[1..], b);
      ConcatAssociates([a[0]], a[1..], b);
      HeardFirst(a[0], a[1..] + b);
      ConcatAssociates(EventOf(a[0]), Heard(a[1..]), Heard(b));
    }
  }

  function Events(s: string): seq<Event> {
    Heard(Frames(s))
  }

  // ------------------------------------------------------- chunk independence

  lemma FramesUnfold(s: string, k: nat)
    requires Separator(s) == Some(k)
    ensures k + 2 <= |s| && Frames(s) == [s[..k]] + Frames(s[k + 2..]) && Rest(s) == Rest(s[k + 2..])
  {
    hide *;
    FramesSplit(s, k);
    RestSplit(s, k);
  }

  lemma FramesSplit(s: string, k: nat)
    requires Separator(s) == Some(k)
    ensures k + 2 <= |s| && Frames(s) == [s[..k]] + Frames(s[k + 2..])
  {
    hide Heard, Parsed, Separator, Rest;
  }

  lemma RestSplit(s: string, k: nat)
    requires Separator(s) == Some(k)
    ensures k + 2 <= |s| && Rest(s) == Rest(s[k + 2..])
  {
    hide Heard, Parsed, Separator, Frames;
  }

  lemma EventsUnfold(s: string, k: nat)
    requires Separator(s) == Some(k)
    ensures k + 2 <= |s| && Events(s) == EventOf(s[..k]) + Events(s[k + 2..])
  {
    hide Frames, Heard, Rest, EventOf, Separator;
    FramesUnfold(s, k);
    HeardFirst(s[..k], Frames(s[k + 2..]));
  }

  lemma NoFrames(s: string)
    requires Separator(s).None?
    ensures Frames(s) == [] && Rest(s) == s && Events(s) == []
  {
  }

  /** Text that arrives later only adds frames. */
  lemma {:induction false} FramesAppend(a: string, b: string)
    ensures Frames(a + b) == Frames(a) + Frames(Rest(a) + b)
    ensures Rest(a + b) == Rest(Rest(a) + b)
    decreases |a|
  {
    hide *;
    var k := Separator(a);
    if k.Some? {
      FirstFrame(a, b, k.value);
      FramesUnfold(a, k.value);
      FramesUnfold(a + b, k.value);
      FramesAppend(a[k.value + 2..], b);
      ConcatAssociates([a[..k.value]], Frames(a[k.value + 2..]), Frames(Rest(a) + b));
    } else {
      NoFrames(a);
      assert Frames(a) + Frames(a + b) == Frames(a + b);
    }
  }

  lemma FirstFrame(a: string, b: string, k: nat)
    requires Separator(a) == Some(k)
    ensures Separator(a + b) == Some(k) && (a + b)[..k] == a[..k] && (a + b)[k + 2..] == a[k + 2..] + b
  {
    forall i | 0 <= i < k
      ensures !((a + b)[i] == (a + b)[i + 1] == '\n')
    {
      assert !(a[i] == a[i + 1] == '\n');
    }
    SeparatorIs(a + b, k);
  }

  function Concat(chunks: seq<string>): string {
    if chunks == [] then [] else Concat(chunks[..|chunks| - 1]) + chunks[|chunks| - 1]
  }

  /** Emptying the buffer of its complete frames, one event at a time. */
  method Drain(buffer: string) returns (yielded: seq<Event>, left: string)
    ensures yielded == Events(buffer) && left == Rest(buffer)
  {
    hide *;
    yielded, left := [], buffer;
    var separator := Separator(left);
    while separator.Some?
      invariant separator == Separator(left)
      invariant yielded + Events(left) == Events(buffer) && Rest(left) == Rest(buffer)
      decreases |left|
    {
      FramesUnfold(left, separator.value);
      EventsUnfold(left, separator.value);
      var frame := left[..separator.value];
      left := left[separator.value + 2..];
      var parsed := ParseFrame(frame);
      EventOfParsed(frame);
      ConcatAssociates(yielded, EventOf(frame), Events(left));
      if parsed.Some? {
        yielded := yielded + [parsed.value];
      }
      separator := Separator(left);
    }
    NoFrames(left);
  }

  lemma EventOfParsed(frame: string)
    ensures EventOf(frame) == if Parsed(frame).Some? then [Parsed(frame).value] else []
  {
  }

  /** However the text is cut, exactly the events of its complete frames come out, in
      order; an unterminated last frame yields nothing. */
  method StreamSse(chunks: seq<string>) returns (yielded: seq<Event>)
    ensures yielded == Events(Concat(chunks))
  {
    var buffer := "";
    yielded := [];
    assert chunks[..0] == [];
    for i := 0 to |chunks|
      invariant yielded == Events(Concat(chunks[..i]))
      invariant buffer == Rest(Concat(chunks[..i]))
    {
      var more;
      more, buffer := Drain(buffer + chunks[i]);
      yielded := yielded + more;
      ChunkAdds(chunks, i);
    }
    assert chunks[..|chunks|] == chunks;
  }

  lemma EventsAppend(a: string, b: string)
    ensures Events(a + b) == Events(a) + Events(Rest(a) + b) && Rest(a + b) == Rest(Rest(a) + b)
  {
    hide Frames, Heard, Rest;
    FramesAppend(a, b);
    HeardConcat(Frames(a), Frames(Rest(a) + b));
  }

  lemma ChunkAdds(chunks: seq<string>, i: nat)
    requires i < |chunks|
    ensures
      var seen := Concat(chunks[..i]);
      && Events(Concat(chunks[..i + 1])) == Events(seen) + Events(Rest(seen) + chunks[i])
      && Rest(Concat(chunks[..i + 1])) == Rest(Rest(seen) + chunks[i])
  {
    var seen := Concat(chunks[..i]);
    assert chunks[..i + 1][..i] == chunks[..i];
    assert Concat(chunks[..i + 1]) == seen + chunks[i];
    EventsAppend(seen, chunks[i]);
  }

  /** Events once yielded are never taken back. */
  lemma EventsOnlyGrow(a: string, b: string)
    ensures Events(a) <= Events(a + b)
  {
    EventsAppend(a, b);
  }

  // -------------------------------------------------------------- round trip

  /** The lines of an event as section 9.2.5 of the HTML standard lets a server write
      them: its name, then one data field for each line of its data. */
  function DataFields(lines: seq<string>): (fields: seq<string>)
    ensures |fields| == |lines|
  {
    if lines == [] then [] else DataFields(lines[..|lines| - 1]) + ["data: " + lines[|lines| - 1]]
  }

  function Fields(e: Event): seq<string> {
    ["event: " + e.name] + DataFields(Split(e.data, '\n'))
  }

  function Encoded(e: Event): string {
    Join(Fields(e), '\n') + "\n\n"
  }

  function EncodedAll(es: seq<Event>): string {
    if es == [] then [] else Encoded(es[0]) + EncodedAll(es[1..])
  }

  /** What survives trimming: a name of one line without white space around it, data
      lines without leading white space. */
  predicate Clean(e: Event) {
    && '\n' !in e.name && StartsClean(e.name) && EndsClean(e.name)
    && var lines := Split(e.data, '\n'); forall i :: 0 <= i < |lines| ==> StartsClean(lines[i])
  }

  /** What the client makes of the lines of an event. */
  function Trimmed(lines: seq<string>): (out: seq<string>)
    ensures |out| == |lines|
  {
    if lines == [] then [] else Trimmed(lines[..|lines| - 1]) + [TrimStart(lines[|lines| - 1])]
  }

  function Received(e: Event): Event {
    Event(Trim(e.name), Join(Trimmed(Split(e.data, '\n')), '\n'))
  }

  lemma {:induction false} DataFieldsAt(lines: seq<string>, k: nat)
    requires k < |lines|
    ensures DataFields(lines)[k] == "data: " + lines[k] && Trimmed(lines)[k] == TrimStart(lines[k])
  {
    if k < |lines| - 1 {
      DataFieldsAt(lines[..|lines| - 1], k);
    }
  }

  lemma SpaceTrimmed(s: string)
    ensures TrimStart([' '] + s) == TrimStart(s) && Trim([' '] + s) == Trim(s)
  {
    assert ([' '] + s)[1..] == s;
  }

  lemma DataParse(line: string)
    ensures IsData("data: " + line) && TrimStart(("data: " + line)[5..]) == TrimStart(line)
  {
    assert ("data: " + line)[5..] == [' '] + line;
    SpaceTrimmed(line);
  }

  /** One more data field at the end of a frame. */
  lemma DataFieldAdds(fields: seq<string>, line: string)
    ensures EventName(fields + ["data: " + line]) == EventName(fields)
    ensures DataLines(fields + ["data: " + line]) == DataLines(fields) + [TrimStart(line)]
  {
    var more := fields + ["data: " + line];
    DataParse(line);
    assert more[..|fields|] == fields && more[|fields|] == "data: " + line;
    assert ("data: " + line)[0] == 'd';
    hide TrimStart, IsData;
  }

  lemma NameField(e: Event)
    ensures Fields(e)[..1] == ["event: " + e.name]
    ensures EventName(["event: " + e.name]) == Trim(e.name) && DataLines(["event: " + e.name]) == []
  {
    var first := "event: " + e.name;
    assert first[..6] == EVENT && first[6..] == [' '] + e.name && first[0] == 'e';
    SpaceTrimmed(e.name);
    assert [first][..0] == [];
  }

  lemma FieldAt(e: Event, k: nat)
    requires 0 < k <= |Split(e.data, '\n')|
    ensures Fields(e)[..k + 1] == Fields(e)[..k] + ["data: " + Split(e.data, '\n')[k - 1]]
    ensures Trimmed(Split(e.data, '\n')[..k]) ==
            Trimmed(Split(e.data, '\n')[..k - 1]) + [TrimStart(Split(e.data, '\n')[k - 1])]
  {
    var lines := Split(e.data, '\n');
    DataFieldsAt(lines, k - 1);
    assert lines[..k][..k - 1] == lines[..k - 1];
  }

  lemma {:induction false} FieldsParse(e: Event, k: nat)
    requires k <= |Split(e.data, '\n')|
    ensures EventName(Fields(e)[..k + 1]) == Trim(e.name)
    ensures DataLines(Fields(e)[..k + 1]) == Trimmed(Split(e.data, '\n')[..k])
  {
    if k == 0 {
      NameField(e);
      assert Split(e.data, '\n')[..0] == [];
    } else {
      hide *;
      FieldsParse(e, k - 1);
      FieldAt(e, k);
      DataFieldAdds(Fields(e)[..k], Split(e.data, '\n')[k - 1]);
    }
  }

  /** One event, alone in its frame. */
  lemma FrameParses(e: Event)
    requires '\n' !in e.name
    ensures Parsed(Join(Fields(e), '\n')) == Some(Received(e))
  {
    var lines := Split(e.data, '\n');
    FieldsFree(e);
    SplitJoin(Fields(e), '\n');
    FieldsParse(e, |lines|);
    assert Fields(e)[..|lines| + 1] == Fields(e);
    assert lines[..|lines|] == lines;
  }

  lemma DataFieldsGrow(lines: seq<string>)
    requires lines != []
    ensures DataFields(lines) == DataFields(lines[..|lines| - 1]) + ["data: " + lines[|lines| - 1]]
    ensures Trimmed(lines) == Trimmed(lines[..|lines| - 1]) + [TrimStart(lines[|lines| - 1])]
  {
  }

  lemma NoFields()
    ensures EventName(DataFields([])) == "message" && DataLines(DataFields([])) == Trimmed([])
  {
  }

  lemma {:induction false} NamelessFields(lines: seq<string>)
    ensures EventName(DataFields(lines)) == "message" && DataLines(DataFields(lines)) == Trimmed(lines)
  {
    hide *;
    if lines == [] {
      NoFields();
    } else {
      var init := lines[..|lines| - 1];
      NamelessFields(init);
      DataFieldsGrow(lines);
      DataFieldAdds(DataFields(init), lines[|lines| - 1]);
    }
  }

  lemma DataFieldsFree(lines: seq<string>)
    requires Free(lines, '\n')
    ensures Free(DataFields(lines), '\n')
  {
    forall i | 0 <= i < |lines|
      ensures '\n' !in DataFields(lines)[i]
    {
      DataFieldsAt(lines, i);
    }
  }

  /** A frame without an event field is a message. */
  lemma NamelessIsMessage(data: string)
    ensures
      var lines := Split(data, '\n');
      Parsed(Join(DataFields(lines), '\n')) == Some(Event("message", Join(Trimmed(lines), '\n')))
  {
    var lines := Split(data, '\n');
    SplitFree(data, '\n');
    NamelessFields(lines);
    DataFieldsFree(lines);
    hide Split, Join, Trimmed, DataFields;
    SplitJoin(DataFields(lines), '\n');
  }

  lemma FieldsFree(e: Event)
    requires '\n' !in e.name
    ensures Free(Fields(e), '\n') && forall i :: 0 <= i < |Fields(e)| ==> Fields(e)[i] != []
  {
    var lines := Split(e.data, '\n');
    SplitFree(e.data, '\n');
    forall i | 0 <= i < |Fields(e)|
      ensures '\n' !in Fields(e)[i] && Fields(e)[i] != []
    {
      if i > 0 {
        DataFieldsAt(lines, i - 1);
      }
    }
  }

  /** Non-empty lines without line feeds have no blank line between or after them. */
  lemma {:induction false} JoinTight(lines: seq<string>)
    requires |lines| >= 1 && Free(lines, '\n') && forall i :: 0 <= i < |lines| ==> lines[i] != []
    ensures
      var t := Join(lines, '\n');
      && |t| >= 1 && t[0] != '\n' && t[|t| - 1] != '\n'
      && forall i :: 0 <= i < |t| - 1 ==> !(t[i] == t[i + 1] == '\n')
  {
    var t := Join(lines, '\n');
    if |lines| == 1 {
      assert t == lines[0];
    } else {
      JoinTight(lines[1..]);
      var r := Join(lines[1..], '\n');
      var n := |lines[0]|;
      forall i | 0 <= i < |t| - 1
        ensures !(t[i] == t[i + 1] == '\n')
      {
        if i < n {
          assert t[i] == lines[0][i];
        } else if i == n {
          assert t[i + 1] == r[0];
        } else {
          assert t[i] == r[i - n - 1] && t[i + 1] == r[i - n];
        }
      }
      assert t[0] == lines[0][0] && t[|t| - 1] == r[|r| - 1];
    }
  }

  /** An encoded event is one frame, whatever follows it. */
  lemma EncodedFrames(e: Event, b: string)
    requires '\n' !in e.name
    ensures Frames(Encoded(e) + b) == [Join(Fields(e), '\n')] + Frames(b)
    ensures Rest(Encoded(e) + b) == Rest(b)
  {
    var t := Join(Fields(e), '\n');
    var s := Encoded(e) + b;
    FieldsFree(e);
    JoinTight(Fields(e));
    forall i | 0 <= i < |t|
      ensures !(s[i] == s[i + 1] == '\n')
    {
      assert s[i] == t[i];
      assert i + 1 < |t| ==> s[i + 1] == t[i + 1];
    }
    SeparatorIs(s, |t|);
    assert s[..|t|] == t && s[|t| + 2..] == b;
  }

  lemma EncodedReceived(e: Event, b: string)
    requires '\n' !in e.name
    ensures Events(Encoded(e) + b) == [Received(e)] + Events(b)
  {
    EncodedFrames(e, b);
    FrameParses(e);
    hide Frames, Encoded, Parsed, Received, Heard;
    HeardFirst(Join(Fields(e), '\n'), Frames(b));
  }

  lemma {:induction false} AllReceived(es: seq<Event>, tail: string)
    requires forall i :: 0 <= i < |es| ==> '\n' !in es[i].name
    ensures |Events(EncodedAll(es) + tail)| == |es| + |Events(tail)|
    ensures forall i :: 0 <= i < |es| ==> Events(EncodedAll(es) + tail)[i] == Received(es[i])
  {
    if es == [] {
      assert EncodedAll(es) + tail == tail;
    } else {
      var b := EncodedAll(es[1..]) + tail;
      assert EncodedAll(es) == Encoded(es[0]) + EncodedAll(es[1..]);
      hide *;
      ConcatAssociates(Encoded(es[0]), EncodedAll(es[1..]), tail);
      EncodedReceived(es[0], b);
      AllReceived(es[1..], tail);
      forall i | 0 <= i < |es|
        ensures Events(EncodedAll(es) + tail)[i] == Received(es[i])
      {
        assert i > 0 ==> es[1..][i - 1] == es[i];
      }
    }
  }

  lemma TrimmedExact(lines: seq<string>)
    requires Free(lines, '\n')
    ensures Free(Trimmed(lines), '\n')
    ensures Trimmed(lines) == lines <==> forall i :: 0 <= i < |lines| ==> StartsClean(lines[i])
  {
    forall i | 0 <= i < |lines|
      ensures Trimmed(lines)[i] == lines[i] <==> StartsClean(lines[i])
      ensures '\n' !in Trimmed(lines)[i]
    {
      DataFieldsAt(lines, i);
      TrimStartExact(lines[i]);
    }
    hide StartsClean, Trimmed;
  }

  /** An event is received as it was sent exactly when it is clean. */
  lemma ReceivedExact(e: Event)
    ensures Received(e) == e && '\n' !in e.name <==> Clean(e)
  {
    var lines := Split(e.data, '\n');
    hide Split, Join, Trim, StartsClean, EndsClean, Trimmed;
    TrimExact(e.name);
    SplitFree(e.data, '\n');
    JoinSplit(e.data, '\n');
    TrimmedExact(lines);
    SplitJoin(Trimmed(lines), '\n');
  }

  /** No name the client reports has a line feed in it. */
  lemma {:induction false} NamesFree(lines: seq<string>)
    requires Free(lines, '\n')
    ensures '\n' !in EventName(lines)
  {
    if lines != [] {
      var last := lines[|lines| - 1];
      if IsEvent(last) {
        TrimStartExact(last[6..]);
        TrimEndExact(TrimStart(last[6..]));
      } else {
        NamesFree(lines[..|lines| - 1]);
      }
    }
  }

  lemma {:induction false} HeardNamesFree(frames: seq<string>, i: nat)
    requires i < |Heard(frames)|
    ensures '\n' !in Heard(frames)[i].name
  {
    SplitFree(frames[0], '\n');
    NamesFree(Split(frames[0], '\n'));
    var first := EventOf(frames[0]);
    assert |first| <= 1 && (|first| == 1 ==> '\n' !in first[0].name);
    if i >= |first| {
      HeardNamesFree(frames[1..], i - |first|);
    }
  }

  /** The round trip: a list of events comes through exactly when every one of them is
      clean, however the text is cut and whatever unterminated frame trails it. */
  lemma RoundTrip(es: seq<Event>, tail: string, chunks: seq<string>)
    requires Separator(tail).None?
    requires Concat(chunks) == EncodedAll(es) + tail
    ensures Events(Concat(chunks)) == es <==> forall i :: 0 <= i < |es| ==> Clean(es[i])
  {
    hide *;
    forall i | 0 <= i < |es|
      ensures Clean(es[i]) <==> Received(es[i]) == es[i] && '\n' !in es[i].name
    {
      ReceivedExact(es[i]);
    }
    if forall i :: 0 <= i < |es| ==> '\n' !in es[i].name {
      AllReceived(es, tail);
      NoFrames(tail);
    } else {
      var k :| 0 <= k < |es| && '\n' in es[k].name;
      assert !Clean(es[k]);
      NameNeverHeard(Concat(chunks), es, k);
    }
  }

  lemma NameNeverHeard(s: string, es: seq<Event>, k: nat)
    requires k < |es| && '\n' in es[k].name
    ensures Events(s) != es
  {
    if Events(s) == es {
      HeardNamesFree(Frames(s), k);
    }
  }

  /** A stream whose lines all end in a carriage return and a line feed, which the
      standard allows, yields nothing at all. */
  lemma CarriageReturnsSilence(s: string)
    requires forall i :: 0 <= i < |s| && s[i] == '\n' ==> i > 0 && s[i - 1] == '\r'
    ensures Events(s) == []
  {
    assert Separator(s).None?;
  }
}
