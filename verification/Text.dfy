/** Line splitting and trimming as the two SDKs' languages define them. */
module Text {
  /** Whose notion of white space: String.prototype.trim, strings.TrimSpace, or str.strip. */
  datatype Language = Js | Go | Py

  predicate CommonSpace(c: char) {
    var n := c as int;
    || 0x09 <= n <= 0x0D || n == 0x20 || n == 0xA0 || n == 0x1680 || 0x2000 <= n <= 0x200A
    || n == 0x2028 || n == 0x2029 || n == 0x202F || n == 0x205F || n == 0x3000
  }

  predicate IsSpace(t: Language, c: char) {
    || CommonSpace(c)
    || match t
       case Js => c as int == 0xFEFF
       case Go => c as int == 0x85
       case Py => c as int == 0x85 || 0x1C <= c as int <= 0x1F
  }

  /** The white space of each language, code by code. */
  lemma SpacesListed(c: char)
    ensures var codes := {9, 10, 11, 12, 13, 32, 160, 5760, 8192, 8193, 8194, 8195, 8196, 8197, 8198, 8199, 8200,
                          8201, 8202, 8232, 8233, 8239, 8287, 12288};
            CommonSpace(c) <==> c as int in codes
    ensures IsSpace(Js, c) <==> CommonSpace(c) || c as int == 65279
    ensures IsSpace(Go, c) <==> CommonSpace(c) || c as int == 133
    ensures IsSpace(Py, c) <==> CommonSpace(c) || c as int in {28, 29, 30, 31, 133}
  {
  }

  function TrimStart(t: Language, s: string): string {
    if s != "" && IsSpace(t, s[0]) then TrimStart(t, s[1..]) else s
  }

  function TrimEnd(t: Language, s: string): string {
    if s != "" && IsSpace(t, s[|s| - 1]) then TrimEnd(t, s[..|s| - 1]) else s
  }

  function Trim(t: Language, s: string): string { TrimEnd(t, TrimStart(t, s)) }

  /** No white space at either end. */
  predicate Tight(t: Language, s: string) {
    s == "" || (!IsSpace(t, s[0]) && !IsSpace(t, s[|s| - 1]))
  }

  predicate NoNewline(s: string) {
    forall i :: 0 <= i < |s| ==> s[i] != '\n'
  }

  lemma {:induction false} TrimStartFacts(t: Language, s: string)
    ensures var r := TrimStart(t, s);
            (r == "" || !IsSpace(t, r[0])) && (NoNewline(s) ==> NoNewline(r))
  {
    if s != "" && IsSpace(t, s[0]) { TrimStartFacts(t, s[1..]); }
  }

  lemma {:induction false} TrimEndFacts(t: Language, s: string)
    ensures var r := TrimEnd(t, s);
            r <= s && (r == "" || !IsSpace(t, r[|r| - 1])) && (NoNewline(s) ==> NoNewline(r))
  {
    if s != "" && IsSpace(t, s[|s| - 1]) { TrimEndFacts(t, s[..|s| - 1]); }
  }

  /** Trimming yields a string with tight ends and brings in no newline. */
  lemma TrimFacts(t: Language, s: string)
    ensures Tight(t, Trim(t, s)) && (NoNewline(s) ==> NoNewline(Trim(t, s)))
  {
    TrimStartFacts(t, s);
    TrimEndFacts(t, TrimStart(t, s));
  }

  predicate AllSpace(t: Language, s: string) {
    forall i :: 0 <= i < |s| ==> IsSpace(t, s[i])
  }

  lemma {:induction false} TrimStartSuffix(t: Language, s: string) returns (k: nat)
    ensures k <= |s| && TrimStart(t, s) == s[k..] && AllSpace(t, s[..k])
  {
    k := 0;
    if s != "" && IsSpace(t, s[0]) {
      k := TrimStartSuffix(t, s[1..]);
      assert s[1..][k..] == s[k + 1..] && s[..k + 1] == [s[0]] + s[1..][..k];
      k := k + 1;
    } else {
      assert s[0..] == s;
    }
  }

  lemma {:induction false} TrimEndPrefix(t: Language, s: string) returns (m: nat)
    ensures m <= |s| && TrimEnd(t, s) == s[..m] && AllSpace(t, s[m..])
  {
    m := |s|;
    if s != "" && IsSpace(t, s[|s| - 1]) {
      m := TrimEndPrefix(t, s[..|s| - 1]);
      assert s[..|s| - 1][..m] == s[..m] && s[m..] == s[..|s| - 1][m..] + [s[|s| - 1]];
    } else {
      assert s[..m] == s;
    }
  }

  /** Trimming removes white space at the two ends, all of it, and nothing else. */
  lemma TrimExactly(t: Language, s: string) returns (k: nat, m: nat)
    ensures k <= m <= |s| && Trim(t, s) == s[k..m]
    ensures AllSpace(t, s[..k]) && AllSpace(t, s[m..]) && Tight(t, s[k..m])
  {
    k := TrimStartSuffix(t, s);
    m := TrimEndPrefix(t, s[k..]);
    assert s[k..][..m] == s[k..k + m] && s[k..][m..] == s[k + m..];
    m := k + m;
    TrimFacts(t, s);
    hide TrimStart, TrimEnd;
  }

  lemma TrimTight(t: Language, s: string)
    requires Tight(t, s)
    ensures Trim(t, s) == s
  {
  }

  /** The two languages trim alike except for U+FEFF and U+0085. */
  predicate PlainSpaces(s: string) {
    forall i :: 0 <= i < |s| ==> s[i] as int != 0xFEFF && s[i] as int != 0x85
  }

  lemma TrimsAlike(s: string)
    requires PlainSpaces(s)
    ensures Trim(Js, s) == Trim(Go, s)
  {
    TrimStartsAlike(s);
    TrimEndsAlike(TrimStart(Js, s));
  }

  lemma {:induction false} TrimStartsAlike(s: string)
    requires PlainSpaces(s)
    ensures TrimStart(Js, s) == TrimStart(Go, s) && PlainSpaces(TrimStart(Js, s))
  {
    if s != "" { TrimStartsAlike(s[1..]); }
  }

  lemma {:induction false} TrimEndsAlike(s: string)
    requires PlainSpaces(s)
    ensures TrimEnd(Js, s) == TrimEnd(Go, s)
  {
    if s != "" { TrimEndsAlike(s[..|s| - 1]); }
  }

  /** Trimming what follows a field name such as "event:" and a space. */
  lemma TrimField(t: Language, name: string, value: string)
    requires name != "" && Tight(t, name) && Tight(t, value)
    ensures Trim(t, name + " " + value) == if value == "" then name else name + " " + value
    ensures Trim(t, " " + value) == value
  {
    var s := name + " " + value;
    assert s[0] == name[0];
    assert TrimStart(t, s) == s;
    if value == "" {
      assert s[|s| - 1] == ' ' && s[..|s| - 1] == name;
      assert TrimEnd(t, s) == TrimEnd(t, name);
    } else {
      assert s[|s| - 1] == value[|value| - 1];
    }
    assert (" " + value)[1..] == value;
    assert TrimStart(t, " " + value) == TrimStart(t, value);
    TrimTight(t, value);
  }

  // ----- lines

  /** The completed lines and the unterminated rest. */
  datatype Lines = Lines(done: seq<string>, rest: string)

  function Cut(l: Lines, s: string): Lines {
    if s == "" then l
    else
      var m := Cut(l, s[..|s| - 1]);
      var c := s[|s| - 1];
      if c == '\n' then Lines(m.done + [m.rest], "") else Lines(m.done, m.rest + [c])
  }

  /** Split at every newline; there is always at least one part. */
  function Split(s: string): (parts: seq<string>)
    ensures |parts| >= 1
  {
    var l := Cut(Lines([], ""), s);
    l.done + [l.rest]
  }

  lemma {:induction false} CutAppend(l: Lines, a: string, b: string)
    ensures Cut(l, a + b) == Cut(Cut(l, a), b)
  {
    if b == "" {
      assert a + b == a;
    } else {
      assert (a + b)[..|a + b| - 1] == a + b[..|b| - 1];
      CutAppend(l, a, b[..|b| - 1]);
    }
  }

  lemma {:induction false} CutShift(before: seq<string>, l: Lines, s: string)
    ensures Cut(Lines(before + l.done, l.rest), s) == Lines(before + Cut(l, s).done, Cut(l, s).rest)
  {
    if s != "" {
      CutShift(before, l, s[..|s| - 1]);
      var m := Cut(l, s[..|s| - 1]);
      assert before + m.done + [m.rest] == before + (m.done + [m.rest]);
    }
  }

  lemma {:induction false} CutPlain(l: Lines, s: string)
    requires NoNewline(s)
    ensures Cut(l, s) == Lines(l.done, l.rest + s)
  {
    if s != "" {
      CutPlain(l, s[..|s| - 1]);
      assert l.rest + s == l.rest + s[..|s| - 1] + [s[|s| - 1]];
    } else {
      assert l.rest + s == l.rest;
    }
  }

  lemma {:induction false} SplitParts(s: string)
    ensures forall i :: 0 <= i < |Split(s)| ==>
              NoNewline(Split(s)[i]) && (PlainSpaces(s) ==> PlainSpaces(Split(s)[i]))
  {
    if s != "" {
      SplitParts(s[..|s| - 1]);
      var m := Cut(Lines([], ""), s[..|s| - 1]);
      var parts := Split(s[..|s| - 1]);
      assert parts == m.done + [m.rest] && parts[|m.done|] == m.rest;
      assert forall i :: 0 <= i < |m.done| ==> parts[i] == m.done[i];
    }
  }

  /** The parts with a newline between each two. */
  function Join(parts: seq<string>): string {
    if parts == [] then ""
    else if |parts| == 1 then parts[0]
    else Join(parts[..|parts| - 1]) + "\n" + parts[|parts| - 1]
  }

  /** Splitting loses nothing: the parts have no newlines, and joined by newlines they are
      the text again. */
  lemma {:induction false} SplitExactly(s: string)
    ensures Join(Split(s)) == s
    ensures forall part <- Split(s) :: NoNewline(part)
  {
    SplitParts(s);
    if s == "" {
      assert Split(s) == [""];
    } else {
      var m, c := Cut(Lines([], ""), s[..|s| - 1]), s[|s| - 1];
      SplitExactly(s[..|s| - 1]);
      assert s == s[..|s| - 1] + [c];
      hide Cut;
      JoinGrows(m, c);
    }
  }

  lemma JoinGrows(m: Lines, c: char)
    ensures Join(m.done + [m.rest] + [""]) == Join(m.done + [m.rest]) + "\n"
    ensures Join(m.done + [m.rest + [c]]) == Join(m.done + [m.rest]) + [c]
  {
    var parts := m.done + [m.rest];
    assert (parts + [""])[..|parts|] == parts;
    assert parts[..|m.done|] == m.done && (m.done + [m.rest + [c]])[..|m.done|] == m.done;
  }

  lemma SplitShape(text: string, lines: seq<string>, buffer: string)
    requires Split(text) == lines + [buffer]
    ensures Cut(Lines([], ""), text) == Lines(lines, buffer) && NoNewline(buffer)
  {
    var l := Cut(Lines([], ""), text);
    assert Split(text)[|l.done|] == l.rest && Split(text)[..|l.done|] == l.done;
    SplitParts(text);
  }

  lemma CutFrom(lines: seq<string>, buffer: string, chunk: string)
    requires NoNewline(buffer)
    ensures var m := Cut(Lines(lines, buffer), chunk); m.done + [m.rest] == lines + Split(buffer + chunk)
  {
    CutPlain(Lines([], ""), buffer);
    assert "" + buffer == buffer;
    CutAppend(Lines([], ""), buffer, chunk);
    CutShift(lines, Lines([], buffer), chunk);
    assert lines + [] == lines;
  }

  /** Text that arrives after an unterminated line continues that line. */
  lemma SplitContinue(text: string, lines: seq<string>, buffer: string, chunk: string)
    requires Split(text) == lines + [buffer]
    ensures Split(text + chunk) == lines + Split(buffer + chunk)
  {
    hide Cut;
    SplitShape(text, lines, buffer);
    CutAppend(Lines([], ""), text, chunk);
    CutFrom(lines, buffer, chunk);
  }

  lemma SplitLine(line: string, rest: string)
    requires NoNewline(line)
    ensures Split(line + "\n" + rest) == [line] + Split(rest)
  {
    CutPlain(Lines([], ""), line);
    var l := line + "\n";
    assert l[..|l| - 1] == line && l[|l| - 1] == '\n';
    assert [] + [line] == [line] && "" + line == line;
    assert Cut(Lines([], ""), line + "\n") == Lines([line], "");
    CutAppend(Lines([], ""), line + "\n", rest);
    CutFrom([line], "", rest);
    assert "" + rest == rest;
  }
}
