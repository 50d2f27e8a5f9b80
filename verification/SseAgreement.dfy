/** The event-stream loop of the Go SDK, and exactly when it yields what the TypeScript
    parser yields. */
module SseAgreement {
  import opened Wrappers
  import opened Text
  import opened SseParser

  /** The Go loop's variables; an absent event and an empty one are the same there. */
  datatype Loop = Loop(event: string, data: string, out: seq<Pair>)

  const BEGIN := Loop("", "", [])

  function Scan(g: Loop, line: Line): Loop {
    match line
    case Blank =>
      Loop("", "", if g.event != "" && g.data != "" then g.out + [Pair(g.event, g.data)] else g.out)
    case EventLine(name) => g.(event := name)
    case DataLine(data) => g.(data := data)
    case Ignored => g
  }

  function ScanAll(g: Loop, lines: seq<Line>): Loop {
    if lines == [] then g else Scan(ScanAll(g, lines[..|lines| - 1]), lines[|lines| - 1])
  }

  /** The scanner returns every line, and an unterminated rest only if it is not empty. */
  function ScannedLines(text: string): seq<string> {
    var parts := Split(text);
    if parts[|parts| - 1] == "" then parts[..|parts| - 1] else parts
  }

  function ClassifyAll(t: Language, lines: seq<string>): (r: seq<Line>)
    ensures |r| == |lines| && forall i :: 0 <= i < |r| ==> r[i] == Classify(t, lines[i])
  {
    if lines == [] then []
    else ClassifyAll(t, lines[..|lines| - 1]) + [Classify(t, lines[|lines| - 1])]
  }

  function GoEvents(text: string): seq<Pair> {
    ScanAll(BEGIN, ClassifyAll(Go, ScannedLines(text))).out
  }

  /** The scanner loop of streamInternal; `events` are the pairs handed to the event parser. */
  method StreamEvents(text: string) returns (events: seq<Pair>)
    ensures events == GoEvents(text)
  {
    var lines := ScannedLines(text);
    ghost var classes := ClassifyAll(Go, lines);
    var currentEvent, currentData := "", "";
    events := [];
    hide Trim, Split;
    for i := 0 to |lines|
      invariant Loop(currentEvent, currentData, events) == ScanAll(BEGIN, classes[..i])
    {
      assert classes[..i + 1][..i] == classes[..i];
      var line := Trim(Go, lines[i]);
      if line == "" {
        if currentEvent != "" && currentData != "" {
          events := events + [Pair(currentEvent, currentData)];
        }
        currentEvent, currentData := "", "";
      } else if EVENT_FIELD <= line {
        currentEvent := Trim(Go, line[6..]);
      } else if DATA_FIELD <= line {
        currentData := Trim(Go, line[5..]);
      }
    }
    assert classes[..|lines|] == classes;
  }

  /** What each line makes the Go loop do: only a blank line yields, and only data under a
      non-empty event; an ignored line changes nothing. */
  lemma GoLineExactly(g: Loop, line: Line)
    ensures var h := Scan(g, line);
            && h.out == (if line.Blank? && g.data != "" && g.event != ""
                         then g.out + [Pair(g.event, g.data)] else g.out)
            && h.data == (if line.Blank? then "" else if line.DataLine? then line.data else g.data)
            && h.event == (if line.Blank? then "" else if line.EventLine? then line.name else g.event)
  {
  }

  /** The scanned lines are the text's lines: all of them, but for an empty last one. */
  lemma ScannedExactly(text: string)
    ensures Join(ScannedLines(text)) + (if text != "" && text[|text| - 1] == '\n' then "\n" else "") == text
    ensures forall line <- ScannedLines(text) :: NoNewline(line)
    ensures text == "" ==> ScannedLines(text) == []
  {
    SplitExactly(text);
    var parts := Split(text);
    var last := parts[|parts| - 1];
    assert parts == parts[..|parts| - 1] + [last];
    if text != "" && text[|text| - 1] == '\n' {
      var lines := SplitEnded(text);
    } else if text != "" {
      LastLine(text);
    }
    hide Split;
  }

  lemma LastLine(text: string)
    requires text != "" && text[|text| - 1] != '\n'
    ensures Split(text)[|Split(text)| - 1] != ""
  {
  }

  function FeedLines(p: Parser, lines: seq<Line>): Parser {
    if lines == [] then p else Feed(FeedLines(p, lines[..|lines| - 1]), lines[|lines| - 1])
  }

  // ----- what the open block of a stream holds, by looking back to the last blank line

  function OpenEvent(lines: seq<Line>): Option<string> {
    if lines == [] then None
    else match lines[|lines| - 1]
      case Blank => None
      case EventLine(name) => Some(name)
      case _ => OpenEvent(lines[..|lines| - 1])
  }

  function OpenData(lines: seq<Line>): string {
    if lines == [] then ""
    else match lines[|lines| - 1]
      case Blank => ""
      case DataLine(data) => data
      case _ => OpenData(lines[..|lines| - 1])
  }

  /** The line at the end of `lines` makes both loops do the same: a blank line closes no
      data, or data under a non-empty event; a data line does not push out earlier data
      that had no event. */
  predicate SameEffect(before: seq<Line>, line: Line) {
    && (line.Blank? ==> OpenData(before) == "" || (OpenEvent(before).Some? && OpenEvent(before).value != ""))
    && (line.DataLine? ==> OpenData(before) == "" || OpenEvent(before).Some?)
  }

  /** Checkable on the lines alone: every line has the same effect, and the stream does
      not end inside a block that holds data. */
  ghost predicate Agreeable(lines: seq<Line>) {
    AllSame(lines) && OpenData(lines) == ""
  }

  ghost predicate AllSame(lines: seq<Line>) {
    forall k :: 0 <= k < |lines| ==> SameEffect(lines[..k], lines[k])
  }

  /** The two loops side by side: same open block, and TypeScript has yielded at least as
      many pairs, the same ones exactly if every line so far had the same effect. */
  ghost predicate SideBySide(p: Parser, g: Loop, lines: seq<Line>) {
    && p.event == OpenEvent(lines) && p.data == OpenData(lines)
    && g.event == (if p.event.Some? then p.event.value else "") && g.data == p.data
    && |p.out| >= |g.out|
    && (p.out == g.out <==> |p.out| == |g.out|)
    && (p.out == g.out <==> AllSame(lines))
  }

  lemma SideBySideStep(p: Parser, g: Loop, before: seq<Line>, line: Line)
    requires SideBySide(p, g, before)
    ensures SideBySide(Feed(p, line), Scan(g, line), before + [line])
  {
    AllSplit(before, line);
    var p', g' := Feed(p, line), Scan(g, line);
    OpenStep(before, line);
    hide OpenEvent, OpenData, AllSame;
    assert |p'.out| - |p.out| == |g'.out| - |g.out| <==> SameEffect(before, line);
  }

  lemma OpenStep(before: seq<Line>, line: Line)
    ensures OpenEvent(before + [line]) ==
            match line case Blank => None case EventLine(x) => Some(x) case _ => OpenEvent(before)
    ensures OpenData(before + [line]) == match line case Blank => "" case DataLine(x) => x case _ => OpenData(before)
  {
    assert (before + [line])[..|before|] == before;
  }

  lemma AllSplit(before: seq<Line>, line: Line)
    ensures AllSame(before + [line]) <==> AllSame(before) && SameEffect(before, line)
  {
    hide SameEffect;
    var lines := before + [line];
    assert forall k :: 0 <= k <= |before| ==> lines[..k] == before[..k];
    assert before[..|before|] == before;
  }

  lemma {:induction false} RunSideBySide(lines: seq<Line>)
    ensures SideBySide(FeedLines(FRESH, lines), ScanAll(BEGIN, lines), lines)
  {
    if lines != [] {
      hide Feed, Scan, SideBySide;
      var n := |lines| - 1;
      RunSideBySide(lines[..n]);
      assert lines[..n] + [lines[n]] == lines;
      SideBySideStep(FeedLines(FRESH, lines[..n]), ScanAll(BEGIN, lines[..n]), lines[..n], lines[n]);
    }
  }

  lemma {:induction false} FeedClassified(p: Parser, lines: seq<string>)
    ensures FeedAll(p, lines) == FeedLines(p, ClassifyAll(Js, lines))
  {
    if lines != [] {
      hide Feed, Classify;
      var n := |lines| - 1;
      FeedClassified(p, lines[..n]);
      assert ClassifyAll(Js, lines)[..n] == ClassifyAll(Js, lines[..n]);
    }
  }

  /** TypeScript's extra empty last line is a flush, which the final flush repeats. */
  lemma ParseScanned(text: string)
    ensures ParseText(text) == Flush(FeedLines(FRESH, ClassifyAll(Js, ScannedLines(text)))).out
  {
    var parts := Split(text);
    var n := |parts| - 1;
    FeedClassified(FRESH, ScannedLines(text));
    if parts[n] == "" {
      hide Split;
      TrimTight(Js, "");
      assert parts == parts[..n] + [""];
      TakeTrailing(FRESH, parts[..n], "");
    }
  }

  lemma ClassifiesAlike(line: string)
    requires PlainSpaces(line)
    ensures Classify(Js, line) == Classify(Go, line)
  {
    hide TrimStart, TrimEnd;
    TrimsAlike(line);
    var t := Trim(Js, line);
    TrimKeepsPlain(line);
    if EVENT_FIELD <= t { TrimsAlike(t[6..]); }
    if DATA_FIELD <= t { TrimsAlike(t[5..]); }
  }

  lemma TrimKeepsPlain(line: string)
    requires PlainSpaces(line)
    ensures PlainSpaces(Trim(Js, line))
  {
    TrimStartsAlike(line);
    TrimEndFacts(Js, TrimStart(Js, line));
  }

  /** Both languages read every line alike once trimmed. */
  ghost predicate ReadAlike(text: string) {
    ClassifyAll(Js, ScannedLines(text)) == ClassifyAll(Go, ScannedLines(text))
  }

  lemma PlainReadsAlike(text: string)
    requires PlainSpaces(text)
    ensures ReadAlike(text)
  {
    var lines := ScannedLines(text);
    SplitParts(text);
    forall i | 0 <= i < |lines| ensures Classify(Js, lines[i]) == Classify(Go, lines[i]) {
      ClassifiesAlike(lines[i]);
    }
  }

  /** On every text that both languages read alike, line by line, as they do without U+FEFF and
      U+0085, TypeScript yields at least as many pairs as Go, and the two SDKs yield the same
      pairs exactly when the lines are agreeable. */
  lemma Agreement(text: string)
    requires ReadAlike(text)
    ensures |ParseText(text)| >= |GoEvents(text)|
    ensures ParseText(text) == GoEvents(text) <==> Agreeable(ClassifyAll(Go, ScannedLines(text)))
  {
    hide Split, Classify, FeedLines, ScanAll, AllSame, OpenEvent, OpenData;
    ParseScanned(text);
    RunSideBySide(ClassifyAll(Go, ScannedLines(text)));
  }

  // ----- any text

  function Name(event: Option<string>): string { if event.Some? then event.value else DEFAULT_EVENT }

  /** What TypeScript yields at a line: the data before it, at a blank line or at a data line
      when no event line is open. */
  function TsYield(before: seq<Line>, line: Line): seq<Pair> {
    if OpenData(before) != "" && (line.Blank? || (line.DataLine? && OpenEvent(before).None?))
    then [Pair(Name(OpenEvent(before)), OpenData(before))] else []
  }

  /** What Go yields at a line: the data before it, at a blank line under a non-empty event. */
  function GoYield(before: seq<Line>, line: Line): seq<Pair> {
    if line.Blank? && OpenData(before) != "" && OpenEvent(before).Some? && OpenEvent(before).value != ""
    then [Pair(OpenEvent(before).value, OpenData(before))] else []
  }

  function TsYields(lines: seq<Line>): seq<Pair> {
    if lines == [] then []
    else TsYields(lines[..|lines| - 1]) + TsYield(lines[..|lines| - 1], lines[|lines| - 1])
  }

  function GoYields(lines: seq<Line>): seq<Pair> {
    if lines == [] then []
    else GoYields(lines[..|lines| - 1]) + GoYield(lines[..|lines| - 1], lines[|lines| - 1])
  }

  /** What TypeScript still yields when the stream ends. */
  function Rest(lines: seq<Line>): seq<Pair> {
    if OpenData(lines) != "" then [Pair(Name(OpenEvent(lines)), OpenData(lines))] else []
  }

  lemma {:induction false} YieldsAre(lines: seq<Line>)
    ensures FeedLines(FRESH, lines).out == TsYields(lines) && ScanAll(BEGIN, lines).out == GoYields(lines)
  {
    if lines != [] {
      hide OpenEvent, OpenData, AllSame;
      var before := lines[..|lines| - 1];
      YieldsAre(before);
      RunSideBySide(before);
    }
  }

  /** On every text at all: each SDK yields what its own reading of the lines opens and closes,
      so they agree exactly when those lists are equal. */
  lemma AgreementOfReadings(text: string)
    ensures var ts, go := ClassifyAll(Js, ScannedLines(text)), ClassifyAll(Go, ScannedLines(text));
            && ParseText(text) == TsYields(ts) + Rest(ts)
            && GoEvents(text) == GoYields(go)
            && (ParseText(text) == GoEvents(text) <==> TsYields(ts) + Rest(ts) == GoYields(go))
  {
    hide Split, Classify, OpenEvent, OpenData, FeedLines, ScanAll, TsYields, GoYields, AllSame;
    var ts := ClassifyAll(Js, ScannedLines(text));
    ParseScanned(text);
    YieldsAre(ts);
    YieldsAre(ClassifyAll(Go, ScannedLines(text)));
    RunSideBySide(ts);
    assert TsYields(ts) + [] == TsYields(ts);
  }

  const NEXT_LINE_DATA := "\U{0085}data: x"

  /** A line that begins with U+0085 is data to Go and ignored by TypeScript, so here it is Go
      that yields more. */
  lemma UnlikeWitness()
    ensures var text := "event: a\n" + NEXT_LINE_DATA + "\n\n";
            !ReadAlike(text) && ParseText(text) == [] && GoEvents(text) == [Pair("a", "x")]
  {
    var text, lines := "event: a\n" + NEXT_LINE_DATA + "\n\n", ["event: a", NEXT_LINE_DATA, ""];
    UnlikeLine(NEXT_LINE_DATA);
    UnlikeText(NEXT_LINE_DATA);
    hide Classify, Split, ScannedLines, Trim, TsYields, GoYields, Rest, ParseText, GoEvents;
    UnlikeReadings(NEXT_LINE_DATA);
    AgreementOfReadings(text);
    UnlikeYields();
    assert ClassifyAll(Js, lines)[1] != ClassifyAll(Go, lines)[1];
  }

  lemma UnlikeText(odd: string)
    requires NoNewline(odd)
    ensures ScannedLines("event: a\n" + odd + "\n\n") == ["event: a", odd, ""]
  {
    hide Cut;
    var last := "" + "\n" + "";
    assert "event: a\n" + odd + "\n\n" == "event: a" + "\n" + (odd + "\n" + last);
    SplitLine("event: a", odd + "\n" + last);
    SplitLine(odd, last);
    SplitLine("", "");
    SplitEmpty();
    assert ["event: a"] + ([odd] + ([""] + [""])) == ["event: a", odd, "", ""];
    hide Split;
    assert ["event: a", odd, "", ""][..3] == ["event: a", odd, ""];
  }

  lemma UnlikeLine(odd: string)
    requires odd == NEXT_LINE_DATA
    ensures NoNewline(odd) && Classify(Js, odd) == Ignored && Classify(Go, odd) == DataLine("x")
  {
    var rest := DATA_FIELD + " " + "x";
    assert odd[1..] == rest && odd[0] as int == 0x85 && odd[0] != 'e' && odd[0] != 'd';
    UnlikeTrims(odd, rest);
    TrimTight(Go, "");
    hide Trim;
    assert EVENT_FIELD[0] == 'e' && DATA_FIELD[0] == 'd';
    ClassifyData(Go, "x");
    SameTrimSameLine(Go, odd, rest);
  }

  lemma SameTrimSameLine(t: Language, a: string, b: string)
    requires Trim(t, a) == Trim(t, b)
    ensures Classify(t, a) == Classify(t, b)
  {
  }

  lemma UnlikeTrims(odd: string, rest: string)
    requires odd != "" && odd[1..] == rest && odd[0] as int == 0x85 && rest == "data: x"
    ensures Trim(Js, odd) == odd && Trim(Go, odd) == Trim(Go, rest)
  {
    assert odd[|odd| - 1] == 'x';
    TrimTight(Js, odd);
  }

  lemma UnlikeReadings(odd: string)
    requires Classify(Js, odd) == Ignored && Classify(Go, odd) == DataLine("x")
    ensures var lines := ["event: a", odd, ""];
            && ClassifyAll(Js, lines) == [EventLine("a"), Ignored, Blank]
            && ClassifyAll(Go, lines) == [EventLine("a"), DataLine("x"), Blank]
  {
    hide Classify;
    assert EVENT_FIELD + " " + "a" == "event: a";
    ClassifyFields(Js, "a", "");
    ClassifyFields(Go, "a", "");
  }

  lemma UnlikeYields()
    ensures var ts := [EventLine("a"), Ignored, Blank]; TsYields(ts) + Rest(ts) == []
    ensures GoYields([EventLine("a"), DataLine("x"), Blank]) == [Pair("a", "x")]
  {
    hide OpenEvent, OpenData, TsYields, GoYields;
    UnlikeOpen();
    YieldsThree(EventLine("a"), Ignored, Blank);
    YieldsThree(EventLine("a"), DataLine("x"), Blank);
  }

  lemma UnlikeOpen()
    ensures OpenData([]) == "" && OpenData([EventLine("a")]) == ""
    ensures OpenData([EventLine("a"), Ignored]) == "" && OpenData([EventLine("a"), Ignored, Blank]) == ""
    ensures OpenData([EventLine("a"), DataLine("x")]) == "x"
    ensures OpenEvent([EventLine("a"), DataLine("x")]) == Some("a")
  {
    assert [] + [EventLine("a")] == [EventLine("a")];
    assert [EventLine("a")] + [Ignored] == [EventLine("a"), Ignored];
    assert [EventLine("a"), Ignored] + [Blank] == [EventLine("a"), Ignored, Blank];
    assert [EventLine("a")] + [DataLine("x")] == [EventLine("a"), DataLine("x")];
    OpenStep([], EventLine("a"));
    OpenStep([EventLine("a")], Ignored);
    OpenStep([EventLine("a"), Ignored], Blank);
    OpenStep([EventLine("a")], DataLine("x"));
    hide OpenEvent, OpenData;
  }

  lemma YieldsThree(a: Line, b: Line, c: Line)
    ensures TsYields([a, b, c]) == TsYield([], a) + TsYield([a], b) + TsYield([a, b], c)
    ensures GoYields([a, b, c]) == GoYield([], a) + GoYield([a], b) + GoYield([a, b], c)
  {
    hide TsYield, GoYield;
    var one, two, three := [a], [a, b], [a, b, c];
    assert three[..|three| - 1] == two && two[..|two| - 1] == one && one[..|one| - 1] == [];
    assert TsYields(one) == TsYield([], a) && GoYields(one) == GoYield([], a);
    assert TsYields(two) == TsYields(one) + TsYield(one, b) && GoYields(two) == GoYields(one) + GoYield(one, b);
  }

  /** A data line without an event line: TypeScript yields a "message", Go nothing. */
  lemma DisagreementWitness()
    ensures ParseText("data: x\n\n") == [Pair("message", "x")] && GoEvents("data: x\n\n") == []
  {
    var text := "data: x\n\n";
    assert text == "data: x" + "\n" + ("" + "\n" + "");
    SplitLine("data: x", "" + "\n" + "");
    SplitLine("", "");
    SplitEmpty();
    assert Split(text) == ["data: x", "", ""];
    assert ScannedLines(text) == ["data: x", ""];
    WitnessLines(text);
  }

  lemma WitnessLines(text: string)
    requires ScannedLines(text) == ["data: x", ""]
    ensures ParseText(text) == [Pair("message", "x")] && GoEvents(text) == []
  {
    assert DATA_FIELD + " " + "x" == "data: x";
    ClassifyFields(Js, "", "x");
    ClassifyFields(Go, "", "x");
    hide Classify, Split, ScannedLines, Trim, FeedLines, ScanAll, Flush;
    assert ClassifyAll(Js, ["data: x", ""]) == ClassifyAll(Go, ["data: x", ""]) == [DataLine("x"), Blank];
    ParseScanned(text);
    WitnessRuns();
  }

  lemma WitnessRuns()
    ensures Flush(FeedLines(FRESH, [DataLine("x"), Blank])).out == [Pair("message", "x")]
    ensures ScanAll(BEGIN, [DataLine("x"), Blank]).out == []
  {
    var two := [DataLine("x"), Blank];
    assert two[..1] == [DataLine("x")] && two[..1][..0] == [];
    assert FeedLines(FRESH, two[..1]) == Parser(None, "x", []);
    assert ScanAll(BEGIN, two[..1]) == Loop("", "x", []);
  }
}
