/** The incremental event-stream parser of the TypeScript SDK. */
module SseParser {
  import opened Wrappers
  import opened Text

  datatype Pair = Pair(event: string, data: string)

  const DEFAULT_EVENT := "message"
  const EVENT_FIELD := "event:"
  const DATA_FIELD := "data:"

  /** What a line of the stream is, once trimmed. */
  datatype Line = Blank | EventLine(name: string) | DataLine(data: string) | Ignored

  function Classify(t: Language, line: string): Line {
    var trimmed := Trim(t, line);
    if trimmed == "" then Blank
    else if EVENT_FIELD <= trimmed then EventLine(Trim(t, trimmed[6..]))
    else if DATA_FIELD <= trimmed then DataLine(Trim(t, trimmed[5..]))
    else Ignored
  }

  /** The parser's variables and the pairs yielded so far. */
  datatype Parser = Parser(event: Option<string>, data: string, out: seq<Pair>)

  const FRESH := Parser(None, "", [])

  function Flush(p: Parser): Parser {
    Parser(None, "", if p.data != "" then p.out + [Pair(EventName(p), p.data)] else p.out)
  }

  function EventName(p: Parser): string {
    if p.event.Some? then p.event.value else DEFAULT_EVENT
  }

  function Feed(p: Parser, line: Line): Parser {
    match line
    case Blank => Flush(p)
    case EventLine(name) => p.(event := Some(name))
    case DataLine(data) =>
      (if p.data != "" && p.event.None? then Flush(p) else p).(data := data)
    case Ignored => p
  }

  function FeedAll(p: Parser, lines: seq<string>): Parser {
    if lines == [] then p
    else Feed(FeedAll(p, lines[..|lines| - 1]), Classify(Js, lines[|lines| - 1]))
  }

  /** The reference: fold over all lines of the whole text, then flush. */
  function ParseText(text: string): seq<Pair> {
    Flush(FeedAll(FRESH, Split(text))).out
  }

  function Concat(chunks: seq<string>): string {
    if chunks == [] then "" else Concat(chunks[..|chunks| - 1]) + chunks[|chunks| - 1]
  }

  lemma {:induction false} FeedAllAppend(p: Parser, a: seq<string>, b: seq<string>)
    ensures FeedAll(p, a + b) == FeedAll(FeedAll(p, a), b)
  {
    hide Feed, Classify;
    if b == [] {
      assert a + b == a;
    } else {
      var n := |b| - 1;
      assert (a + b)[..|a| + n] == a + b[..n];
      FeedAllAppend(p, a, b[..n]);
    }
  }

  /** The streaming loop: whatever the chunks, it yields the events of the concatenated
      text. */
  method ReadSSEEvents(chunks: seq<string>) returns (yielded: seq<Pair>)
    ensures yielded == ParseText(Concat(chunks))
  {
    var buffer := "";
    var currentEvent: Option<string> := None;
    var currentData := "";
    yielded := [];
    ghost var complete: seq<string> := [];
    hide Feed, Classify, Trim, Cut, TrimStart, TrimEnd;
    SplitEmpty();
    assert chunks[..0] == [];
    for k := 0 to |chunks|
      invariant Split(Concat(chunks[..k])) == complete + [buffer]
      invariant Parser(currentEvent, currentData, yielded) == FeedAll(FRESH, complete)
    {
      assert chunks[..k + 1][..k] == chunks[..k];
      SplitContinue(Concat(chunks[..k]), complete, buffer, chunks[k]);
      var parts := Split(buffer + chunks[k]);
      var lines := parts[..|parts| - 1];
      buffer := parts[|parts| - 1];
      assert complete + lines[..0] == complete;
      for i := 0 to |lines|
        invariant Parser(currentEvent, currentData, yielded) == FeedAll(FRESH, complete + lines[..i])
      {
        assert (complete + lines[..i + 1])[..|complete| + i] == complete + lines[..i];
        currentEvent, currentData, yielded := TakeLine(currentEvent, currentData, yielded, lines[i]);
      }
      assert lines[..|lines|] == lines;
      complete := complete + lines;
      assert complete + [buffer] == Split(Concat(chunks[..k + 1]));
    }
    assert chunks[..|chunks|] == chunks;
    TakeTrailing(FRESH, complete, buffer);
    var trailing := Trim(Js, buffer);
    if trailing != "" {
      currentEvent, currentData, yielded := TakeLine(currentEvent, currentData, yielded, buffer);
    }
    if currentData != "" {
      yielded := yielded + [Pair(if currentEvent.Some? then currentEvent.value else DEFAULT_EVENT, currentData)];
    }
  }

  lemma SplitEmpty()
    ensures Split("") == [] + [""] && Concat([]) == "" && FeedAll(FRESH, []) == FRESH
  {
  }

  /** A blank unterminated line changes nothing that the final flush would not. */
  lemma TakeTrailing(p: Parser, lines: seq<string>, last: string)
    ensures var q := FeedAll(p, lines);
            && FeedAll(p, lines + [last]) == Feed(q, Classify(Js, last))
            && (Trim(Js, last) == "" ==> Flush(FeedAll(p, lines + [last])) == Flush(q))
            && Flush(q).out == if q.data != "" then q.out + [Pair(EventName(q), q.data)] else q.out
  {
    assert (lines + [last])[..|lines|] == lines;
  }

  /** The body of the line loop. */
  method TakeLine(event: Option<string>, data: string, out: seq<Pair>, line: string)
    returns (currentEvent: Option<string>, currentData: string, yielded: seq<Pair>)
    ensures Parser(currentEvent, currentData, yielded) == Feed(Parser(event, data, out), Classify(Js, line))
    ensures var trimmed := Trim(Js, line);
            && (currentEvent, currentData) == (
                 if trimmed == "" then (None, "")
                 else if "event:" <= trimmed then (Some(Trim(Js, trimmed[6..])), data)
                 else if "data:" <= trimmed then (event, Trim(Js, trimmed[5..]))
                 else (event, data))
            && (!("data:" <= trimmed) && trimmed != "" ==> yielded == out)
  {
    currentEvent, currentData, yielded := event, data, out;
    var trimmed := Trim(Js, line);
    if trimmed == "" {
      if currentData != "" {
        yielded := yielded + [Pair(if currentEvent.Some? then currentEvent.value else DEFAULT_EVENT, currentData)];
      }
      currentEvent, currentData := None, "";
    } else if EVENT_FIELD <= trimmed {
      currentEvent := Some(Trim(Js, trimmed[6..]));
    } else if DATA_FIELD <= trimmed {
      if currentData != "" && currentEvent.None? {
        yielded := yielded + [Pair(DEFAULT_EVENT, currentData)];
      }
      currentData := Trim(Js, trimmed[5..]);
    }
  }

  // ----- lines that are neither

  /** A line that is not blank and starts with neither field is nothing to either SDK. */
  lemma ClassifyIgnores(t: Language, line: string)
    requires Trim(t, line) != "" && !("event:" <= Trim(t, line)) && !("data:" <= Trim(t, line))
    ensures Classify(t, line) == Ignored
  {
  }

  /** Such a line, a keep-alive comment say, may stand between any two lines of a stream: what
      the stream yields is the same without it. */
  lemma IgnoredLine(before: string, line: string, after: string)
    requires before == "" || before[|before| - 1] == '\n'
    requires NoNewline(line)
    requires Trim(Js, line) != "" && !("event:" <= Trim(Js, line)) && !("data:" <= Trim(Js, line))
    ensures ParseText(before + line + "\n" + after) == ParseText(before + after)
  {
    ClassifyIgnores(Js, line);
    var lines := SplitEnded(before);
    hide Classify, Trim, Split, FeedAll, Flush;
    assert before + line + "\n" + after == before + (line + "\n" + after);
    SplitContinue(before, lines, "", line + "\n" + after);
    SplitContinue(before, lines, "", after);
    assert "" + (line + "\n" + after) == line + "\n" + after && "" + after == after;
    SplitLine(line, after);
    FeedAllAppend(FRESH, lines, Split(line + "\n" + after));
    FeedAllAppend(FRESH, lines, Split(after));
    FeedIgnored(FeedAll(FRESH, lines), line, Split(after));
  }

  lemma SplitEnded(text: string) returns (lines: seq<string>)
    requires text == "" || text[|text| - 1] == '\n'
    ensures Split(text) == lines + [""]
  {
    lines := Split(text)[..|Split(text)| - 1];
  }

  lemma FeedIgnored(p: Parser, line: string, rest: seq<string>)
    requires Classify(Js, line) == Ignored
    ensures FeedAll(p, [line] + rest) == FeedAll(p, rest)
  {
    FeedAllAppend(p, [line], rest);
    TakeTrailing(p, [], line);
    assert [] + [line] == [line];
  }

  // ----- when data is yielded

  /** A line yields only data that came before it: a blank line always, a data line only when
      no event line has been seen since the last flush.  A data line never yields its own
      data; what the documentation says of it, that it yields its data as a "message" at
      once, comes out right exactly when it repeats the data that is waiting. */
  lemma LineYieldsExactly(p: Parser, line: Line)
    ensures var q := Feed(p, line);
            && q.out == (if p.data != "" && (line.Blank? || (line.DataLine? && p.event.None?))
                         then p.out + [Pair(EventName(p), p.data)] else p.out)
            && q.data == (if line.Blank? then "" else if line.DataLine? then line.data else p.data)
            && q.event == (if line.Blank? then None else if line.EventLine? then Some(line.name) else p.event)
            && EventName(p) == (match p.event case Some(name) => name case None => "message")
    ensures line.DataLine? ==>
              (Feed(p, line).out == p.out + [Pair(DEFAULT_EVENT, line.data)] <==>
               p.event.None? && p.data == line.data != "")
  {
    if line.DataLine? && p.data != "" && p.event.None? {
      var pair := Pair(DEFAULT_EVENT, p.data);
      assert (p.out + [pair])[|p.out|] == pair;
    }
  }

  /** A stream of one data line has yielded nothing when the line is complete, although no
      event line precedes it; the data comes out when the stream ends. */
  lemma DataLineWaits()
    ensures Split("data: x\n") == ["data: x", ""]
    ensures FeedAll(FRESH, ["data: x"]) == Parser(None, "x", [])
    ensures ParseText("data: x\n") == [Pair(DEFAULT_EVENT, "x")]
  {
    assert "data: x\n" == "data: x" + "\n" + "" && DATA_FIELD + " " + "x" == "data: x";
    SplitLine("data: x", "");
    SplitEmpty();
    ClassifyFields(Js, "", "x");
    hide Classify, Trim, Split, FeedAll, Feed, Flush;
    assert [] + ["data: x"] == ["data: x"] && ["data: x"] + [""] == ["data: x", ""];
    TakeTrailing(FRESH, [], "data: x");
    TakeTrailing(FRESH, ["data: x"], "");
    FeedsWaiting();
  }

  lemma FeedsWaiting()
    ensures var p := Parser(None, "x", []);
            Feed(FRESH, DataLine("x")) == p && Flush(Feed(p, Blank)).out == [Pair(DEFAULT_EVENT, "x")]
  {
  }

  // ----- printing and parsing

  function Block(p: Pair): string {
    EVENT_FIELD + " " + p.event + "\n" + DATA_FIELD + " " + p.data + "\n" + "\n"
  }

  function Print(ps: seq<Pair>): string {
    if ps == [] then "" else Block(ps[0]) + Print(ps[1..])
  }

  /** What the parser can yield at all. */
  predicate Printable(p: Pair) {
    && NoNewline(p.event) && Tight(Js, p.event)
    && NoNewline(p.data) && Tight(Js, p.data) && p.data != ""
  }

  predicate AllPrintable(ps: seq<Pair>) {
    forall i :: 0 <= i < |ps| ==> Printable(ps[i])
  }

  /** What a trimmed line that starts with a field name is. */
  lemma ClassifyTrimmed(t: Language, line: string, trimmed: string)
    requires Trim(t, line) == trimmed
    ensures EVENT_FIELD <= trimmed ==> Classify(t, line) == EventLine(Trim(t, trimmed[6..]))
    ensures DATA_FIELD <= trimmed ==> Classify(t, line) == DataLine(Trim(t, trimmed[5..]))
  {
    hide Trim;
    if DATA_FIELD <= trimmed { assert trimmed[0] == 'd' && EVENT_FIELD[0] == 'e'; }
  }

  lemma FieldRest(name: string, value: string)
    ensures name <= name + " " + value && (name + " " + value)[|name|..] == " " + value
    ensures name[|name|..] == ""
  {
  }

  lemma ClassifyEvent(t: Language, event: string)
    requires Tight(t, event)
    ensures Classify(t, EVENT_FIELD + " " + event) == EventLine(event)
  {
    FieldsTight(t);
    hide Classify, Trim, Tight;
    TrimField(t, EVENT_FIELD, event);
    TrimTight(t, event);
    FieldRest(EVENT_FIELD, event);
    ClassifyTrimmed(t, EVENT_FIELD + " " + event, if event == "" then EVENT_FIELD else EVENT_FIELD + " " + event);
  }

  lemma FieldsTight(t: Language)
    ensures Tight(t, EVENT_FIELD) && Tight(t, DATA_FIELD) && |EVENT_FIELD| == 6 && |DATA_FIELD| == 5
  {
  }

  lemma ClassifyData(t: Language, data: string)
    requires Tight(t, data)
    ensures Classify(t, DATA_FIELD + " " + data) == DataLine(data)
  {
    FieldsTight(t);
    hide Classify, Trim, Tight;
    TrimField(t, DATA_FIELD, data);
    TrimTight(t, data);
    FieldRest(DATA_FIELD, data);
    ClassifyTrimmed(t, DATA_FIELD + " " + data, if data == "" then DATA_FIELD else DATA_FIELD + " " + data);
  }

  lemma ClassifyFields(t: Language, event: string, data: string)
    requires Tight(t, event) && Tight(t, data)
    ensures Classify(t, EVENT_FIELD + " " + event) == EventLine(event)
    ensures Classify(t, DATA_FIELD + " " + data) == DataLine(data)
    ensures Classify(t, "") == Blank
  {
    TrimTight(t, "");
    ClassifyEvent(t, event);
    ClassifyData(t, data);
  }

  function BlockLines(p: Pair): seq<string> {
    [EVENT_FIELD + " " + p.event, DATA_FIELD + " " + p.data, ""]
  }

  lemma SplitBlock(p: Pair, rest: string)
    requires NoNewline(p.event) && NoNewline(p.data)
    ensures Split(Block(p) + rest) == BlockLines(p) + Split(rest)
  {
    var e, d := EVENT_FIELD + " " + p.event, DATA_FIELD + " " + p.data;
    assert Block(p) + rest == e + "\n" + (d + "\n" + ("" + "\n" + rest));
    SplitLine(e, d + "\n" + ("" + "\n" + rest));
    SplitLine(d, "" + "\n" + rest);
    SplitLine("", rest);
  }

  lemma FeedThree(p: Parser, a: string, b: string, c: string)
    ensures FeedAll(p, [a, b, c]) == Feed(Feed(Feed(p, Classify(Js, a)), Classify(Js, b)), Classify(Js, c))
  {
    hide Feed, Classify;
    assert [] + [a] == [a] && [a] + [b] == [a, b] && [a, b] + [c] == [a, b, c];
    TakeTrailing(p, [], a);
    TakeTrailing(p, [a], b);
    TakeTrailing(p, [a, b], c);
  }

  lemma FeedBlock(start: Parser, p: Pair)
    requires Printable(p) && start.event == None && start.data == ""
    ensures FeedAll(start, BlockLines(p)) == Parser(None, "", start.out + [p])
  {
    ClassifyFields(Js, p.event, p.data);
    hide Classify, FeedAll, Trim;
    FeedThree(start, EVENT_FIELD + " " + p.event, DATA_FIELD + " " + p.data, "");
    var p1 := Feed(start, EventLine(p.event));
    var p2 := Feed(p1, DataLine(p.data));
    assert p2 == Parser(Some(p.event), p.data, start.out);
    assert Feed(p2, Blank) == Parser(None, "", start.out + [p]);
  }

  lemma FeedNothing(out: seq<Pair>)
    ensures Flush(FeedAll(Parser(None, "", out), Split(""))) == Parser(None, "", out)
  {
    TakeTrailing(Parser(None, "", out), [], "");
    TrimTight(Js, "");
    SplitEmpty();
  }

  lemma FeedHead(out: seq<Pair>, p: Pair, rest: string)
    requires Printable(p)
    ensures FeedAll(Parser(None, "", out), Split(Block(p) + rest)) == FeedAll(Parser(None, "", out + [p]), Split(rest))
  {
    hide FeedAll, Split, Block, BlockLines;
    SplitBlock(p, rest);
    FeedAllAppend(Parser(None, "", out), BlockLines(p), Split(rest));
    FeedBlock(Parser(None, "", out), p);
  }

  lemma {:induction false} FeedPrinted(out: seq<Pair>, ps: seq<Pair>)
    requires AllPrintable(ps)
    ensures Flush(FeedAll(Parser(None, "", out), Split(Print(ps)))) == Parser(None, "", out + ps)
    decreases ps
  {
    hide FeedAll, Split, Flush, Block, Printable;
    if ps == [] {
      FeedNothing(out);
      assert out + ps == out;
    } else {
      FeedHead(out, ps[0], Print(ps[1..]));
      FeedPrinted(out + [ps[0]], ps[1..]);
      assert out + [ps[0]] + ps[1..] == out + ps;
    }
  }

  ghost predicate Sound(p: Parser) {
    && (p.event.Some? ==> NoNewline(p.event.value) && Tight(Js, p.event.value))
    && NoNewline(p.data) && Tight(Js, p.data)
    && AllPrintable(p.out)
  }

  lemma FeedSound(p: Parser, line: string)
    requires Sound(p) && NoNewline(line)
    ensures Sound(Feed(p, Classify(Js, line)))
  {
    var trimmed := Trim(Js, line);
    TrimFacts(Js, line);
    if EVENT_FIELD <= trimmed { TrimFacts(Js, trimmed[6..]); }
    if DATA_FIELD <= trimmed { TrimFacts(Js, trimmed[5..]); }
    assert NoNewline(DEFAULT_EVENT) && Tight(Js, DEFAULT_EVENT);
  }

  lemma {:induction false} FeedAllSound(p: Parser, lines: seq<string>)
    requires Sound(p) && forall i :: 0 <= i < |lines| ==> NoNewline(lines[i])
    ensures Sound(FeedAll(p, lines))
  {
    if lines != [] {
      FeedAllSound(p, lines[..|lines| - 1]);
      FeedSound(FeedAll(p, lines[..|lines| - 1]), lines[|lines| - 1]);
    }
  }

  /** Every pair the parser yields, from any text, is printable. */
  lemma ParseIsPrintable(text: string)
    ensures AllPrintable(ParseText(text))
  {
    SplitParts(text);
    FeedAllSound(FRESH, Split(text));
    assert NoNewline(DEFAULT_EVENT) && Tight(Js, DEFAULT_EVENT);
  }

  /** Printing and parsing gives the list back exactly when all its pairs are trimmed,
      newline-free and have data. */
  lemma PrintParse(ps: seq<Pair>)
    ensures ParseText(Print(ps)) == ps <==> AllPrintable(ps)
  {
    if AllPrintable(ps) {
      FeedPrinted([], ps);
      assert [] + ps == ps;
    }
    ParseIsPrintable(Print(ps));
  }

  /** Re-printing whatever was parsed from any text is a normal form of that text. */
  lemma ParsePrintParse(text: string)
    ensures ParseText(Print(ParseText(text))) == ParseText(text)
  {
    ParseIsPrintable(text);
    PrintParse(ParseText(text));
  }
}
