/** The event-stream reader of the WHATWG HTML standard, section 9.2.6, and the streams
    on which the web client agrees with it. */
module EventStandard {
  import opened Prelude
  import opened Text
  import opened EventStream

  // ------------------------------------------------------------- the standard

  /** The data and event type buffers. */
  datatype Buffers = Buffers(data: string, name: string)

  const FRESH := Buffers([], [])

  datatype Field = Field(name: string, value: string)

  function LessOneSpace(rest: string): string {
    if rest != [] && rest[0] == ' ' then rest[1..] else rest
  }

  /** A line up to its first colon, and the rest less one leading space; a line without
      a colon is all name. */
  function FieldOf(line: string): Field {
    var e := IndexOf(line, ':');
    if e == |line| then Field(line, []) else Field(line[..e], LessOneSpace(line[e + 1..]))
  }

  function Process(b: Buffers, line: string): Buffers {
    var f := FieldOf(line);
    if f.name == "event" then b.(name := f.value)
    else if f.name == "data" then b.(data := b.data + f.value + ['\n'])
    else b
  }

  /** Nothing without data; otherwise the data less its last line feed. */
  function Dispatch(b: Buffers): seq<Event> {
    if b.data == [] then []
    else [Event(if b.name == [] then "message" else b.name, b.data[..|b.data| - 1])]
  }

  function Interpreted(lines: seq<string>, b: Buffers): seq<Event> {
    if lines == [] then []
    else if lines[0] == [] then Dispatch(b) + Interpreted(lines[1..], FRESH)
    else Interpreted(lines[1..], Process(b, lines[0]))
  }

  /** The events of a stream: its lines end in a carriage return and line feed, a line
      feed, or a carriage return; what comes after the last line end is discarded. */
  function StandardEvents(s: string): seq<Event> {
    Interpreted(Lines(s)[..|Lines(s)| - 1], FRESH)
  }

  // ---------------------------------------------------------------- one line

  /** A line the client reads as the standard does: a data field has its colon and no
      second leading space, an event field has its colon and a name without white space
      around it. */
  predicate Agrees(line: string) {
    var f := FieldOf(line);
    && (f.name == "data" ==> IsData(line) && StartsClean(f.value))
    && (f.name == "event" ==> IsEvent(line) && f.value != [] && StartsClean(f.value) && EndsClean(f.value))
  }

  lemma FieldNames(line: string)
    ensures IsData(line) ==> FieldOf(line).name == "data" && !IsEvent(line)
    ensures IsEvent(line) ==> FieldOf(line).name == "event" && !IsData(line)
    ensures FieldOf(line).name == "data" ==> IsData(line) || line == "data"
    ensures FieldOf(line).name == "event" ==> IsEvent(line) || line == "event"
  {
    var e := IndexOf(line, ':');
    if IsData(line) {
      assert line[..5] == DATA && line[4] == ':' && line[0] == 'd';
      IndexOfIs(line, ':', 4);
      assert line[..4] == "data";
    } else if IsEvent(line) {
      assert line[..6] == EVENT && line[5] == ':' && line[0] == 'e';
      IndexOfIs(line, ':', 5);
      assert line[..5] == "event";
    } else if e < |line| {
      assert line[..e + 1] == line[..e] + [':'] && line[..e + 1] <= line;
      assert DATA == "data" + [':'] && EVENT == "event" + [':'];
    } else {
      assert line[..e] == line;
    }
  }

  lemma ValueAfter(line: string)
    ensures IsData(line) ==> FieldOf(line).value == LessOneSpace(line[5..])
    ensures IsEvent(line) ==> FieldOf(line).value == LessOneSpace(line[6..])
  {
    if IsData(line) {
      assert line[..5] == DATA;
      assert line[0] == 'd' && line[1] == 'a' && line[2] == 't' && line[3] == 'a' && line[4] == ':';
      IndexOfIs(line, ':', 4);
    } else if IsEvent(line) {
      assert line[..6] == EVENT;
      assert line[0] == 'e' && line[1] == 'v' && line[2] == 'e' && line[3] == 'n' && line[4] == 't' && line[5] == ':';
      IndexOfIs(line, ':', 5);
    }
  }

  /** What the two make of a field's value. */
  lemma FieldValues(line: string)
    ensures IsData(line) ==> (TrimStart(line[5..]) == FieldOf(line).value <==> StartsClean(FieldOf(line).value))
    ensures IsEvent(line) ==>
              (Trim(line[6..]) == FieldOf(line).value <==>
               StartsClean(FieldOf(line).value) && EndsClean(FieldOf(line).value))
  {
    ValueAfter(line);
    if IsData(line) {
      ValueTrims(line[5..], FieldOf(line).value);
    } else if IsEvent(line) {
      ValueTrims(line[6..], FieldOf(line).value);
    }
  }

  lemma ValueTrims(rest: string, v: string)
    requires v == LessOneSpace(rest)
    ensures TrimStart(rest) == v <==> StartsClean(v)
    ensures Trim(rest) == v <==> StartsClean(v) && EndsClean(v)
  {
    if rest != [] && rest[0] == ' ' {
      assert rest == [' '] + v;
      SpaceTrimmed(v);
    }
    TrimStartExact(v);
    TrimExact(v);
  }

  // --------------------------------------------------------------- one frame

  /** The buffers after the lines of a frame. */
  function Folded(lines: seq<string>): Buffers {
    if lines == [] then FRESH else Process(Folded(lines[..|lines| - 1]), lines[|lines| - 1])
  }

  /** Data lines, each with a line feed. */
  function Terminated(lines: seq<string>): string {
    if lines == [] then [] else Terminated(lines[..|lines| - 1]) + lines[|lines| - 1] + ['\n']
  }

  ghost predicate AllAgree(lines: seq<string>) {
    forall i :: 0 <= i < |lines| ==> Agrees(lines[i])
  }

  /** Line by line both collect the same. */
  lemma {:induction false} FoldsAlike(lines: seq<string>)
    requires AllAgree(lines)
    ensures Folded(lines).data == Terminated(DataLines(lines))
    ensures EventName(lines) == if Folded(lines).name == [] then "message" else Folded(lines).name
  {
    if lines != [] {
      var init, last := lines[..|lines| - 1], lines[|lines| - 1];
      FoldsAlike(init);
      FieldNames(last);
      FieldValues(last);
      TerminatedGrows(DataLines(init), FieldOf(last).value);
      assert Agrees(last);
      hide FieldOf, IsData, IsEvent, TrimStart, Trim, StartsClean, EndsClean, Terminated;
      assert DataLines(init) + [] == DataLines(init);
    }
  }

  lemma TerminatedGrows(lines: seq<string>, line: string)
    ensures Terminated(lines + [line]) == Terminated(lines) + line + ['\n']
  {
    assert (lines + [line])[..|lines|] == lines;
  }

  lemma {:induction false} TerminatedJoin(lines: seq<string>)
    requires lines != []
    ensures Terminated(lines) == Join(lines, '\n') + ['\n']
  {
    var init, last := lines[..|lines| - 1], lines[|lines| - 1];
    if init == [] {
      assert lines == [last];
    } else {
      TerminatedJoin(init);
      assert lines == init + [last];
      JoinGrows(init, last);
    }
  }

  lemma {:induction false} JoinGrows(lines: seq<string>, last: string)
    requires lines != []
    ensures Join(lines + [last], '\n') == Join(lines, '\n') + ['\n'] + last
  {
    var first, more := lines[0], lines[1..];
    assert lines == [first] + more;
    if more == [] {
      assert lines + [last] == [first] + [last];
      JoinFirst(first, [last], '\n');
    } else {
      JoinGrows(more, last);
      assert lines + [last] == [first] + (more + [last]);
      JoinFirst(first, more + [last], '\n');
      JoinFirst(first, more, '\n');
      hide Join;
      assert first + ['\n'] + (Join(more, '\n') + ['\n'] + last) == first + ['\n'] + Join(more, '\n') + ['\n'] + last;
    }
  }

  /** A frame of agreeing lines gives both the same event. */
  lemma FrameAlike(frame: string)
    requires AllAgree(Split(frame, '\n'))
    ensures Dispatch(Folded(Split(frame, '\n'))) == EventOf(frame)
  {
    var lines := Split(frame, '\n');
    FoldsAlike(lines);
    hide Split, Folded, DataLines, EventName, AllAgree;
    if DataLines(lines) != [] {
      TerminatedJoin(DataLines(lines));
      Halves(Join(DataLines(lines), '\n'), ['\n']);
    } else {
      NoTerminated();
    }
  }

  lemma NoTerminated()
    ensures Terminated([]) == []
  {
  }

  // ------------------------------------------------------------ whole streams

  lemma {:induction false} InterpretedOn(lines: seq<string>, k: nat, tail: seq<string>)
    requires k <= |lines| && forall i :: k <= i < |lines| ==> lines[i] != []
    ensures Interpreted(lines[k..] + tail, Folded(lines[..k])) == Interpreted(tail, Folded(lines))
    decreases |lines| - k
  {
    if k == |lines| {
      assert lines[k..] + tail == tail && lines[..k] == lines;
    } else {
      InterpretedOn(lines, k + 1, tail);
      assert (lines[k..] + tail)[0] == lines[k];
      assert (lines[k..] + tail)[1..] == lines[k + 1..] + tail;
      assert lines[..k + 1][..k] == lines[..k];
      assert Folded(lines[..k + 1]) == Process(Folded(lines[..k]), lines[k]);
    }
  }

  /** Lines of which only the first may be blank, then a blank line. */
  lemma FrameInterpreted(lines: seq<string>, tail: seq<string>)
    requires lines != [] && forall i :: 1 <= i < |lines| ==> lines[i] != []
    ensures Interpreted(lines + tail, FRESH) == Interpreted(tail, Folded(lines))
  {
    hide *;
    assert lines[..0] == [] && lines[0..] == lines;
    FoldedNothing();
    if lines[0] != [] {
      InterpretedOn(lines, 0, tail);
    } else {
      InterpretedOn(lines, 1, tail);
      assert lines == [[]] + lines[1..] && lines[..1] == [[]];
      ConcatAssociates([[]], lines[1..], tail);
      BlankFolds([]);
      BlankInterpreted(FRESH, lines[1..] + tail);
      FreshSilent();
      assert [] + Interpreted(lines[1..] + tail, FRESH) == Interpreted(lines[1..] + tail, FRESH);
    }
  }

  lemma FreshSilent()
    ensures Dispatch(FRESH) == []
  {
  }

  lemma BlankFolds(line: string)
    ensures line == [] ==> Folded([line]) == FRESH
  {
    assert [line][..0] == [];
    assert line == [] ==> FieldOf(line).name == [];
  }

  /** Without carriage returns, lines are what line feeds cut. */
  lemma {:induction false} LinesAreSplit(s: string)
    requires '\r' !in s
    ensures Lines(s) == Split(s, '\n')
    decreases |s|
  {
    var e := LineEnd(s);
    IndexOfIs(s, '\n', e);
    if e < |s| {
      LinesAreSplit(s[e + 1..]);
    }
  }

  lemma {:induction false} SplitConcat(a: string, b: string)
    ensures Split(a + ['\n'] + b, '\n') == Split(a, '\n') + Split(b, '\n')
    decreases |a|
  {
    hide *;
    var e := IndexOf(a, '\n');
    if e == |a| {
      SplitOnce(a, b, '\n');
      SplitWhole(a);
    } else {
      var first, more := a[..e], a[e + 1..];
      assert a + ['\n'] + b == first + ['\n'] + (more + ['\n'] + b);
      SplitOnce(first, more + ['\n'] + b, '\n');
      SplitConcat(more, b);
      SplitFirst(a, e);
      ConcatAssociates([first], Split(more, '\n'), Split(b, '\n'));
    }
  }

  /** Two line feeds never meet. */
  predicate Tight(s: string) {
    forall i :: 0 <= i < |s| - 1 ==> !(s[i] == s[i + 1] == '\n')
  }

  /** No piece between the first and the last is empty. */
  ghost predicate MiddleFull(pieces: seq<string>) {
    forall i :: 1 <= i < |pieces| - 1 ==> pieces[i] != []
  }

  lemma {:induction false} TightPieces(s: string)
    requires Tight(s)
    ensures MiddleFull(Split(s, '\n'))
    ensures s != [] && s[|s| - 1] != '\n' ==> Split(s, '\n')[|Split(s, '\n')| - 1] != []
    ensures s != [] && s[0] != '\n' ==> Split(s, '\n')[0] != []
    decreases |s|
  {
    hide *;
    var e := IndexOf(s, '\n');
    if e < |s| {
      var more := s[e + 1..];
      TightRest(s, e);
      TightPieces(more);
      SplitFirst(s, e);
      if more == [] {
        SplitNothing();
      }
      MiddleGrows(s[..e], Split(more, '\n'));
    } else {
      SplitWhole(s);
      OnePiece(s);
    }
  }

  lemma OnePiece(s: string)
    ensures MiddleFull([s])
  {
  }

  lemma MiddleGrows(first: string, more: seq<string>)
    requires MiddleFull(more) && |more| >= 1 && (|more| > 1 ==> more[0] != [])
    ensures MiddleFull([first] + more)
  {
  }

  lemma SplitFirst(s: string, e: nat)
    requires e == IndexOf(s, '\n') < |s|
    ensures Split(s, '\n') == [s[..e]] + Split(s[e + 1..], '\n')
  {
    hide IndexOf;
  }

  lemma SplitWhole(s: string)
    requires IndexOf(s, '\n') == |s|
    ensures Split(s, '\n') == [s]
  {
  }

  lemma TightRest(s: string, e: nat)
    requires Tight(s) && e < |s| && s[e] == '\n'
    ensures Tight(s[e + 1..]) && (e + 1 < |s| ==> s[e + 1] != '\n')
  {
    var more := s[e + 1..];
    assert forall i :: 0 <= i < |more| ==> more[i] == s[e + 1 + i];
    if e + 1 < |s| {
      assert s[e + 1] != '\n';
    }
  }

  /** A complete frame, its blank line, and what follows. */
  lemma StreamSplits(s: string, k: nat)
    requires Separator(s) == Some(k)
    ensures k + 2 <= |s|
    ensures Split(s, '\n') == Split(s[..k], '\n') + ([[]] + Split(s[k + 2..], '\n'))
    ensures forall i :: 1 <= i < |Split(s[..k], '\n')| ==> Split(s[..k], '\n')[i] != []
  {
    var frame, after := s[..k], s[k + 2..];
    assert s == frame + ['\n'] + ([] + ['\n'] + after);
    FrameTight(s, k);
    hide *;
    SplitConcat(frame, [] + ['\n'] + after);
    SplitConcat([], after);
    SplitNothing();
  }

  lemma SplitNothing()
    ensures Split([], '\n') == [[]]
  {
    IndexOfIs([], '\n', 0);
  }

  lemma FrameTight(s: string, k: nat)
    requires Separator(s) == Some(k)
    ensures k + 2 <= |s| && forall i :: 1 <= i < |Split(s[..k], '\n')| ==> Split(s[..k], '\n')[i] != []
  {
    var frame := s[..k];
    assert Tight(frame);
    if k == 0 {
      SplitNothing();
    } else {
      assert frame[k - 1] == s[k - 1] != '\n';
    }
    hide Split;
    TightPieces(frame);
  }

  lemma AgreeParts(a: seq<string>, b: seq<string>)
    requires AllAgree(a + b)
    ensures AllAgree(a) && AllAgree(b)
  {
    assert forall i :: 0 <= i < |a| ==> (a + b)[i] == a[i];
    assert forall i :: 0 <= i < |b| ==> (a + b)[|a| + i] == b[i];
  }

  lemma {:induction false} SplitAlike(s: string)
    requires AllAgree(Split(s, '\n')[..|Split(s, '\n')| - 1])
    ensures Events(s) == Interpreted(Split(s, '\n')[..|Split(s, '\n')| - 1], FRESH)
    decreases |s|
  {
    hide *;
    var lines := Split(s, '\n');
    var k := Separator(s);
    if k.None? {
      NoFrames(s);
      OpenFrame(s);
    } else {
      var frame, after := SplitParts(s, k.value);
      var first, rest := Split(frame, '\n'), Split(after, '\n');
      var open := rest[..|rest| - 1];
      ConcatAssociates(first, [[]], open);
      assert lines[..|lines| - 1] == first + ([[]] + open);
      AgreeParts(first, [[]] + open);
      AgreeParts([[]], open);
      EventsUnfold(s, k.value);
      FrameAlike(frame);
      SplitAlike(after);
      FrameInterpreted(first, [[]] + open);
      BlankInterpreted(Folded(first), open);
    }
  }

  lemma SplitParts(s: string, k: nat) returns (frame: string, after: string)
    requires Separator(s) == Some(k)
    ensures k + 2 <= |s| && frame == s[..k] && after == s[k + 2..]
    ensures Split(s, '\n') == Split(frame, '\n') + ([[]] + Split(after, '\n'))
    ensures forall i :: 1 <= i < |Split(frame, '\n')| ==> Split(frame, '\n')[i] != []
  {
    frame, after := s[..k], s[k + 2..];
    StreamSplits(s, k);
  }

  lemma BlankInterpreted(b: Buffers, tail: seq<string>)
    ensures Interpreted([[]] + tail, b) == Dispatch(b) + Interpreted(tail, FRESH)
  {
    assert ([[]] + tail)[1..] == tail;
  }

  /** Without a blank line nothing is dispatched. */
  lemma OpenFrame(s: string)
    requires Separator(s).None?
    ensures Interpreted(Split(s, '\n')[..|Split(s, '\n')| - 1], FRESH) == []
  {
    var lines := Split(s, '\n')[..|Split(s, '\n')| - 1];
    assert Tight(s);
    TightPieces(s);
    if lines != [] {
      FrameInterpreted(lines, []);
      assert lines + [] == lines;
    }
  }

  /** On every stream without carriage returns whose complete lines agree, however it is
      cut into chunks, the client yields the events of the standard. */
  lemma StandardAgreement(chunks: seq<string>)
    requires '\r' !in Concat(chunks)
    requires AllAgree(Lines(Concat(chunks))[..|Lines(Concat(chunks))| - 1])
    ensures Events(Concat(chunks)) == StandardEvents(Concat(chunks))
  {
    LinesAreSplit(Concat(chunks));
    SplitAlike(Concat(chunks));
    hide Events, Interpreted, Lines, Split;
  }

  // ------------------------------------------------ no line can be let through

  /** A name, some data, and one line more. */
  function ProbeFields(name: string, data: string, line: string): seq<string> {
    ["event: " + name] + ["data: " + data] + [line]
  }

  function Probe(name: string, data: string, line: string): string {
    Join(ProbeFields(name, data, line), '\n') + "\n\n"
  }

  predicate OneLine(s: string) {
    '\n' !in s && '\r' !in s
  }

  /** A name and data that both readers take as they are. */
  predicate PlainHead(name: string, data: string) {
    && OneLine(name) && name != [] && name != "message" && StartsClean(name) && EndsClean(name)
    && OneLine(data) && StartsClean(data)
  }

  lemma ProbeText(name: string, data: string, line: string)
    requires OneLine(name) && OneLine(data) && OneLine(line) && line != []
    ensures
      var fields := ProbeFields(name, data, line);
      var frame := Join(fields, '\n');
      var s := Probe(name, data, line);
      && |fields| == 3 && (forall i :: 0 <= i < 3 ==> fields[i] != [])
      && Split(frame, '\n') == fields && '\r' !in s
      && Separator(s) == Some(|frame|) && s[..|frame|] == frame && s[|frame| + 2..] == []
  {
    var fields := ProbeFields(name, data, line);
    var frame := Join(fields, '\n');
    assert Free(fields, '\n') && Free(fields, '\r');
    SplitJoin(fields, '\n');
    JoinTight(fields);
    JoinFree(fields);
    hide Join, Split;
    TightSeparator(frame);
  }

  lemma {:induction false} JoinFree(lines: seq<string>)
    requires Free(lines, '\r')
    ensures '\r' !in Join(lines, '\n')
  {
    if |lines| > 1 {
      JoinFree(lines[1..]);
    }
  }

  lemma TightSeparator(frame: string)
    requires Tight(frame) && frame != [] && frame[|frame| - 1] != '\n'
    ensures
      var s := frame + "\n\n";
      Separator(s) == Some(|frame|) && s[..|frame|] == frame && s[|frame| + 2..] == []
  {
    var s := frame + "\n\n";
    forall i | 0 <= i < |frame|
      ensures !(s[i] == s[i + 1] == '\n')
    {
      assert s[i] == frame[i];
      assert i + 1 < |frame| ==> s[i + 1] == frame[i + 1];
    }
    SeparatorIs(s, |frame|);
  }

  /** The condition on lines cannot be weakened: after any name and data that both take
      alike, a line makes the client differ from the standard exactly when it does not
      agree. */
  lemma AgreesExact(name: string, data: string, line: string)
    requires PlainHead(name, data) && OneLine(line) && line != []
    ensures Events(Probe(name, data, line)) == StandardEvents(Probe(name, data, line)) <==> Agrees(line)
  {
    HeadPlain(name, data);
    hide *;
    var s := Probe(name, data, line);
    var fields := ProbeFields(name, data, line);
    var frame := Join(fields, '\n');
    ProbeText(name, data, line);
    LinesAreSplit(s);
    StreamSplits(s, |frame|);
    SplitNothing();
    ProbeStandard(s, fields);
    EventsUnfold(s, |frame|);
    NoSeparator();
    NoFrames([]);
    ProbeBuffers(name, data, line);
    ProbeClient(name, data, line);
    ProbeDiffers(name, data, line);
    assert EventOf(frame) + [] == EventOf(frame);
  }

  lemma HeadPlain(name: string, data: string)
    requires PlainHead(name, data)
    ensures OneLine(name) && OneLine(data)
  {
  }

  lemma NoSeparator()
    ensures Separator([]).None?
  {
  }

  lemma ProbeStandard(s: string, lines: seq<string>)
    requires Lines(s) == lines + ([[]] + [[]]) && lines != []
    requires forall i :: 1 <= i < |lines| ==> lines[i] != []
    ensures StandardEvents(s) == Dispatch(Folded(lines))
  {
    assert Lines(s)[..|Lines(s)| - 1] == lines + ([[]] + []);
    hide Interpreted, Folded, Dispatch;
    FrameInterpreted(lines, [[]] + []);
    BlankInterpreted(Folded(lines), []);
    InterpretedNothing();
    assert Dispatch(Folded(lines)) + [] == Dispatch(Folded(lines));
  }

  lemma InterpretedNothing()
    ensures Interpreted([], FRESH) == []
  {
  }

  lemma FoldedGrows(lines: seq<string>, last: string)
    ensures Folded(lines + [last]) == Process(Folded(lines), last)
  {
    assert (lines + [last])[..|lines|] == lines;
  }

  lemma EventFieldIs(name: string)
    ensures FieldOf("event: " + name) == Field("event", name)
  {
    var a := "event: " + name;
    assert a[..6] == EVENT && a[6..] == [' '] + name;
    FieldNames(a);
    ValueAfter(a);
    assert ([' '] + name)[1..] == name;
  }

  lemma DataFieldIs(data: string)
    ensures FieldOf("data: " + data) == Field("data", data)
  {
    var b := "data: " + data;
    assert b[..5] == DATA && b[5..] == [' '] + data;
    FieldNames(b);
    ValueAfter(b);
    assert ([' '] + data)[1..] == data;
  }

  lemma FoldedNothing()
    ensures Folded([]) == FRESH
  {
  }

  lemma HeadProcessed(name: string, data: string)
    ensures Process(Process(FRESH, "event: " + name), "data: " + data) == Buffers(data + ['\n'], name)
  {
    EventFieldIs(name);
    DataFieldIs(data);
    hide FieldOf;
    assert [] + data == data;
  }

  lemma ProbeBuffers(name: string, data: string, line: string)
    ensures Folded(ProbeFields(name, data, line)) == Process(Buffers(data + ['\n'], name), line)
  {
    var a, b := "event: " + name, "data: " + data;
    assert ProbeFields(name, data, line) == [a] + [b] + [line];
    hide *;
    FoldedGrows([a] + [b], line);
    FoldedGrows([a], b);
    FoldedGrows([], a);
    assert [] + [a] == [a];
    FoldedNothing();
    HeadProcessed(name, data);
  }

  /** The client's event name and data, one line more. */
  lemma ClientGrows(lines: seq<string>, last: string)
    ensures EventName(lines + [last]) == if IsEvent(last) then Trim(last[6..]) else EventName(lines)
    ensures DataLines(lines + [last]) == DataLines(lines) + if IsData(last) then [TrimStart(last[5..])] else []
  {
    assert (lines + [last])[..|lines|] == lines;
    hide Trim, TrimStart;
  }

  lemma HeadClient(name: string, data: string)
    requires PlainHead(name, data)
    ensures EventName(["event: " + name] + ["data: " + data]) == name
    ensures DataLines(["event: " + name] + ["data: " + data]) == [data]
  {
    NameField(Event(name, []));
    DataFieldAdds(["event: " + name], data);
    TrimExact(name);
    TrimStartExact(data);
    hide EventName, DataLines, Trim, TrimStart;
    assert [] + [data] == [data];
  }

  /** The event the client hears in the probe. */
  function ProbeHeard(name: string, data: string, line: string): Event {
    Event(if IsEvent(line) then Trim(line[6..]) else name,
          if IsData(line) then data + ['\n'] + TrimStart(line[5..]) else data)
  }

  lemma ProbeClient(name: string, data: string, line: string)
    requires PlainHead(name, data) && OneLine(line) && line != []
    ensures EventOf(Join(ProbeFields(name, data, line), '\n')) == [ProbeHeard(name, data, line)]
  {
    var lines := ["event: " + name] + ["data: " + data];
    ProbeText(name, data, line);
    HeadClient(name, data);
    ClientGrows(lines, line);
    FieldNames(line);
    hide Trim, TrimStart, EventName, DataLines, Split, IsEvent, IsData, PlainHead, FieldOf, Probe;
    if IsData(line) {
      JoinFirst(data, [TrimStart(line[5..])], '\n');
    } else {
      assert [data] + [] == [data];
    }
  }

  lemma ProbeDiffers(name: string, data: string, line: string)
    requires PlainHead(name, data)
    ensures [ProbeHeard(name, data, line)] == Dispatch(Process(Buffers(data + ['\n'], name), line)) <==> Agrees(line)
  {
    var f := FieldOf(line);
    var head := data + ['\n'];
    FieldNames(line);
    FieldValues(line);
    Halves(data, ['\n']);
    if f.name == "data" {
      Halves(head + f.value, ['\n']);
      if IsData(line) {
        Halves(head, TrimStart(line[5..]));
        Halves(head, f.value);
      }
    } else if f.name == "event" && f.value == [] && IsEvent(line) {
      EmptyNameDiffers(line);
    }
    hide FieldOf, Trim, TrimStart, IsData, IsEvent, StartsClean, EndsClean;
  }

  /** An empty event field names nothing for the client and a message for the standard. */
  lemma EmptyNameDiffers(line: string)
    requires IsEvent(line) && FieldOf(line).value == []
    ensures Trim(line[6..]) != "message"
  {
    FieldValues(line);
    assert StartsClean([]) && EndsClean([]);
  }
}
