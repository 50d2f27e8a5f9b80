/** The request log of an endpoint: entries are appended to one file a day, and the most
    recent ones are read back from the newest file down, stopping early. */
module LogTail {
  import opened Selection
  import opened Sorting
  import opened Wrappers

  datatype Date = Date(year: int, month: nat, day: nat)

  /** `at` is the instant of the request, `date` its calendar date on the node's clock. */
  datatype Entry = Entry(id: string, at: int, date: Date)

  /** A directory entry; the content is None where the file cannot be read. */
  datatype File = File(name: string, isDir: bool, content: Option<seq<Entry>>)

  const SUFFIX := ".jsonl"

  // ----- names and dates

  predicate Less(a: string, b: string) {
    b != "" && (a == "" || a[0] < b[0] || (a[0] == b[0] && Less(a[1..], b[1..])))
  }

  lemma {:induction false} LessTotal(a: string, b: string)
    ensures Less(a, b) || Less(b, a) || a == b
    ensures !(Less(a, b) && Less(b, a)) && !Less(a, a)
  {
    if a != "" {
      LessTotal(a[1..], a[1..]);
      if b != "" {
        LessTotal(a[1..], b[1..]);
        assert a == [a[0]] + a[1..] && b == [b[0]] + b[1..];
      }
    }
  }

  lemma {:induction false} LessTransitive(a: string, b: string, c: string)
    requires Less(a, b) && Less(b, c)
    ensures Less(a, c)
  {
    if a != "" && a[0] == b[0] == c[0] { LessTransitive(a[1..], b[1..], c[1..]); }
  }

  lemma {:induction false} LessConcat(p: string, s: string, q: string, t: string)
    requires |p| == |q|
    ensures Less(p + s, q + t) <==> Less(p, q) || (p == q && Less(s, t))
  {
    if p == "" {
      assert p + s == s && q + t == t;
    } else {
      LessConcat(p[1..], s, q[1..], t);
      assert (p + s)[1..] == p[1..] + s && (q + t)[1..] == q[1..] + t;
      assert p == [p[0]] + p[1..] && q == [q[0]] + q[1..];
    }
  }

  function Digits(n: nat, width: nat): (s: string)
    ensures |s| == width
  {
    if width == 0 then "" else Digits(n / 10, width - 1) + [(n % 10 + '0' as int) as char]
  }

  predicate Fits(n: nat, width: nat) { if width == 0 then n == 0 else Fits(n / 10, width - 1) }

  lemma {:induction false} DigitsOrder(a: nat, b: nat, width: nat)
    requires Fits(a, width) && Fits(b, width)
    ensures Less(Digits(a, width), Digits(b, width)) <==> a < b
    ensures Digits(a, width) == Digits(b, width) <==> a == b
  {
    if width > 0 {
      var p, q := Digits(a / 10, width - 1), Digits(b / 10, width - 1);
      var x, y := [(a % 10 + '0' as int) as char], [(b % 10 + '0' as int) as char];
      DigitsOrder(a / 10, b / 10, width - 1);
      LessConcat(p, x, q, y);
      assert Less(x, y) <==> a % 10 < b % 10;
      assert (p + x)[..width - 1] == p && (q + y)[..width - 1] == q;
      assert (p + x)[width - 1] == x[0] && (q + y)[width - 1] == y[0];
    }
  }

  lemma FitsBelow(n: nat)
    ensures n < 100 ==> Fits(n, 2)
    ensures n < 10000 ==> Fits(n, 4)
  {
    assert n < 100 ==> Fits(n / 10 / 10, 0) && Fits(n / 10, 1);
    assert n < 10000 ==> Fits(n / 10 / 10 / 10, 1) && Fits(n / 10 / 10, 2) && Fits(n / 10, 3);
  }

  predicate Before(a: Date, b: Date) {
    a.year < b.year || (a.year == b.year && (a.month < b.month || (a.month == b.month && a.day < b.day)))
  }

  predicate Printable(d: Date) { 0 <= d.year < 10000 && d.month < 100 && d.day < 100 }

  /** The year on four digits, after a minus sign for the years before zero. */
  function Year(year: int): string { if year < 0 then "-" + Digits(-year, 4) else Digits(year, 4) }

  /** The date as YYYY-MM-DD. */
  function FileName(d: Date): string {
    Year(d.year) + ("-" + (Digits(d.month, 2) + ("-" + (Digits(d.day, 2) + SUFFIX))))
  }

  function DigitChar(n: nat): char { (n % 10 + '0' as int) as char }

  /** The name of a date's file, character by character. */
  lemma FileNameExactly(d: Date)
    requires Printable(d)
    ensures var y, m, n := d.year, d.month, d.day;
            FileName(d) == [DigitChar(y / 1000), DigitChar(y / 100), DigitChar(y / 10), DigitChar(y), '-',
                            DigitChar(m / 10), DigitChar(m), '-', DigitChar(n / 10), DigitChar(n)] + ".jsonl"
  {
    TwoDigits(d.month);
    TwoDigits(d.day);
    FourDigits(d.year);
    hide Digits, DigitChar;
  }

  lemma TwoDigits(n: nat)
    ensures Digits(n, 2) == [DigitChar(n / 10), DigitChar(n)]
  {
    assert Digits(n / 10 / 10, 0) == "";
    assert Digits(n / 10, 1) == [DigitChar(n / 10)];
  }

  lemma FourDigits(n: nat)
    ensures Digits(n, 4) == [DigitChar(n / 1000), DigitChar(n / 100), DigitChar(n / 10), DigitChar(n)]
  {
    TwoDigits(n / 100);
    assert n / 10 / 10 == n / 100 && n / 100 / 10 == n / 1000;
    assert Digits(n / 10, 3) == Digits(n / 100, 2) + [DigitChar(n / 10)];
    assert Digits(n, 4) == Digits(n / 10, 3) + [DigitChar(n)];
  }

  lemma PieceOrder(a: nat, b: nat, width: nat, s: string, t: string)
    requires Fits(a, width) && Fits(b, width)
    ensures Less(Digits(a, width) + s, Digits(b, width) + t) <==> a < b || (a == b && Less(s, t))
    ensures Less("-" + s, "-" + t) <==> Less(s, t)
  {
    DigitsOrder(a, b, width);
    LessConcat(Digits(a, width), s, Digits(b, width), t);
    LessTotal("-", "-");
    LessConcat("-", s, "-", t);
  }

  /** File names sort exactly as their dates do. */
  lemma NamesSortAsDates(a: Date, b: Date)
    requires Printable(a) && Printable(b)
    ensures Less(FileName(a), FileName(b)) <==> Before(a, b)
    ensures FileName(a) == FileName(b) <==> a == b
  {
    hide Less, Digits;
    OneWay(a, b);
    OneWay(b, a);
    LessTotal(FileName(a), FileName(b));
  }

  lemma OneWay(a: Date, b: Date)
    requires Printable(a) && Printable(b)
    ensures Less(FileName(a), FileName(b)) <==> Before(a, b)
  {
    hide Less, Digits;
    FitsBelow(a.year);
    FitsBelow(b.year);
    FitsBelow(a.month);
    FitsBelow(b.month);
    FitsBelow(a.day);
    FitsBelow(b.day);
    var d0, d1 := Digits(a.day, 2) + SUFFIX, Digits(b.day, 2) + SUFFIX;
    var m0, m1 := Digits(a.month, 2) + ("-" + d0), Digits(b.month, 2) + ("-" + d1);
    PieceOrder(a.day, b.day, 2, SUFFIX, SUFFIX);
    LessTotal(SUFFIX, SUFFIX);
    PieceOrder(a.month, b.month, 2, "-" + d0, "-" + d1);
    PieceOrder(a.month, b.month, 2, d0, d1);
    PieceOrder(a.year, b.year, 4, "-" + m0, "-" + m1);
    PieceOrder(a.year, b.year, 4, m0, m1);
  }

  // ----- what the directory holds

  predicate IsLog(f: File) {
    !f.isDir && |f.name| >= |SUFFIX| && f.name[|f.name| - |SUFFIX|..] == SUFFIX
  }

  function LogFiles(dir: seq<File>): seq<File> {
    if dir == [] then []
    else LogFiles(dir[..|dir| - 1]) + if IsLog(dir[|dir| - 1]) then [dir[|dir| - 1]] else []
  }

  /** The log files are the directory's plain files whose names end in ".jsonl". */
  lemma {:induction false} LogFilesExactly(dir: seq<File>, f: File)
    ensures f in LogFiles(dir) <==>
            f in dir && !f.isDir && |f.name| >= 6 && f.name[|f.name| - 6..] == ".jsonl"
  {
    if dir != [] {
      var prev, last := dir[..|dir| - 1], dir[|dir| - 1];
      LogFilesExactly(prev, f);
      assert dir == prev + [last];
      hide LogFiles, IsLog;
      LogFilesNext(prev, last, f);
    }
  }

  lemma LogFilesNext(prev: seq<File>, last: File, f: File)
    ensures f in LogFiles(prev + [last]) <==> f in LogFiles(prev) || (f == last && IsLog(last))
    ensures IsLog(last) <==> !last.isDir && |last.name| >= 6 && last.name[|last.name| - 6..] == ".jsonl"
  {
    assert (prev + [last])[..|prev|] == prev;
  }

  function Content(f: File): seq<Entry> { if f.content.Some? then f.content.value else [] }

  /** Every entry of the readable files. */
  function Readable(files: seq<File>): seq<Entry> {
    if files == [] then [] else Content(files[0]) + Readable(files[1..])
  }

  predicate NameFrom(f: File, g: File) { f.name == g.name || Less(g.name, f.name) }

  predicate TimeFrom(a: Entry, b: Entry) { b.at <= a.at }

  lemma Preorders()
    ensures TotalPreorder(NameFrom) && TotalPreorder(TimeFrom)
  {
    forall f, g: File ensures NameFrom(f, g) || NameFrom(g, f) { LessTotal(f.name, g.name); }
    forall f, g, h: File | NameFrom(f, g) && NameFrom(g, h) ensures NameFrom(f, h) {
      if f.name != g.name && g.name != h.name { LessTransitive(h.name, g.name, f.name); }
    }
  }

  predicate DistinctNames(files: seq<File>) {
    forall i, j :: 0 <= i < j < |files| ==> files[i].name != files[j].name
  }

  // ----- the reading loop

  /** Whole files are taken, newest name first, until the limit is reached. */
  function Collect(files: seq<File>, limit: int, got: seq<Entry>): seq<Entry> {
    if files == [] then got
    else match files[0].content
      case None => Collect(files[1..], limit, got)
      case Some(es) => if |got + es| >= limit then got + es else Collect(files[1..], limit, got + es)
  }

  lemma {:induction false} CollectIsPrefix(files: seq<File>, limit: int, got: seq<Entry>) returns (n: nat)
    ensures n <= |files| && Collect(files, limit, got) == got + Readable(files[..n])
    ensures n == |files| || |Collect(files, limit, got)| >= limit
  {
    if files == [] {
      n := 0;
      assert got + Readable(files[..0]) == got;
    } else {
      var es := Content(files[0]);
      ReadableHead(files, 1);
      if files[0].content.Some? && |got + es| >= limit {
        n := 1;
        assert Readable(files[1..][..0]) == [] && es + [] == es;
      } else {
        hide Readable, Content;
        n := CollectIsPrefix(files[1..], limit, got + es);
        NoContent(files[0], got);
        n := n + 1;
        ReadableHead(files, n);
        assert got + es + Readable(files[1..][..n - 1]) == got + Readable(files[..n]);
      }
    }
  }

  lemma ReadableHead(files: seq<File>, n: nat)
    requires 1 <= n <= |files|
    ensures Readable(files[..n]) == Content(files[0]) + Readable(files[1..][..n - 1])
  {
    assert files[..n][1..] == files[1..][..n - 1];
  }

  lemma NoContent(f: File, got: seq<Entry>)
    ensures f.content.None? ==> got + Content(f) == got
  {
  }

  /** A limit that the first `m` files just reach is met exactly there. */
  lemma {:induction false} CollectStopsAt(files: seq<File>, m: nat, got: seq<Entry>)
    requires 1 <= m <= |files| && Content(files[m - 1]) != []
    ensures Collect(files, |got| + |Readable(files[..m])|, got) == got + Readable(files[..m])
  {
    var es := Content(files[0]);
    assert files[..m][1..] == files[1..][..m - 1];
    assert Readable(files[..m]) == es + Readable(files[1..][..m - 1]);
    if m == 1 {
      assert Readable(files[1..][..0]) == [];
    } else {
      ReadableNonEmpty(files[1..], m - 1);
      CollectStopsAt(files[1..], m - 1, got + es);
      assert got + es + Readable(files[1..][..m - 1]) == got + Readable(files[..m]);
      if files[0].content.None? { assert got + es == got; }
    }
  }

  lemma {:induction false} ReadableNonEmpty(files: seq<File>, m: nat)
    requires 1 <= m <= |files| && Content(files[m - 1]) != []
    ensures Readable(files[..m]) != []
  {
    if m > 1 {
      ReadableNonEmpty(files[1..], m - 1);
      assert files[..m][1..] == files[1..][..m - 1];
    }
  }

  lemma {:induction false} ReadableSplits(files: seq<File>, n: nat)
    requires n <= |files|
    ensures Readable(files) == Readable(files[..n]) + Readable(files[n..])
  {
    if n == 0 {
      assert files[n..] == files;
    } else {
      ReadableSplits(files[1..], n - 1);
      assert files[..n][1..] == files[1..][..n - 1] && files[1..][n - 1..] == files[n..];
    }
  }

  lemma {:induction false} InReadable(files: seq<File>, e: Entry) returns (i: nat)
    requires e in Readable(files)
    ensures i < |files| && e in Content(files[i])
  {
    if e in Content(files[0]) {
      i := 0;
    } else {
      i := InReadable(files[1..], e);
      i := i + 1;
    }
  }

  lemma ReadableHas(files: seq<File>, i: nat, e: Entry)
    requires i < |files| && e in Content(files[i])
    ensures e in Readable(files)
  {
    ReadableSplits(files, i);
    assert files[i..][0] == files[i];
  }

  lemma ReadableWithout(files: seq<File>, i: nat)
    requires i < |files|
    ensures var rest := files[..i] + files[i + 1..];
            && multiset(files) == multiset(rest) + multiset{files[i]}
            && multiset(Readable(files)) == multiset(Readable(rest)) + multiset(Content(files[i]))
  {
    var rest := files[..i] + files[i + 1..];
    assert files == files[..i] + [files[i]] + files[i + 1..];
    ReadableSplits(files, i);
    ReadableSplits(rest, i);
    assert rest[..i] == files[..i] && rest[i..] == files[i + 1..];
    assert files[i..][1..] == files[i + 1..];
  }

  /** Readable entries do not depend on the order of the files. */
  lemma {:induction false} ReadablePermutes(files: seq<File>, other: seq<File>)
    requires multiset(files) == multiset(other)
    ensures multiset(Readable(files)) == multiset(Readable(other))
  {
    hide Readable, Content;
    if files == [] {
      SameSize(files, other);
    } else {
      assert files[0] in multiset(other);
      var i :| 0 <= i < |other| && other[i] == files[0];
      ReadableWithout(files, 0);
      ReadableWithout(other, i);
      assert files[..0] + files[1..] == files[1..];
      assert multiset(files[1..]) == multiset(files) - multiset{files[0]};
      ReadablePermutes(files[1..], other[..i] + other[i + 1..]);
    }
  }

  // ----- what is shown

  /** The collected entries in some order by time, newest first, cut to the limit. */
  ghost predicate Shows(files: seq<File>, limit: nat, kept: seq<Entry>) {
    exists s :: ShowsBy(files, limit, kept, s)
  }

  ghost predicate ShowsBy(files: seq<File>, limit: nat, kept: seq<Entry>, s: seq<Entry>) {
    && SortedBy(s, TimeFrom) && multiset(s) == multiset(Collect(files, limit, []))
    && kept == if |s| > limit then s[..limit] else s
  }

  /** Newest first, as many as the limit allows, each entry at most as often as it was logged. */
  ghost predicate Picked(kept: seq<Entry>, all: multiset<Entry>, limit: nat) {
    && SortedBy(kept, TimeFrom) && multiset(kept) <= all
    && |kept| == if |all| > limit then limit else |all|
  }

  /** No entry left out is later than one that is kept. */
  ghost predicate MostRecent(kept: seq<Entry>, all: multiset<Entry>, limit: nat) {
    Picked(kept, all, limit) && forall e, k :: e in all - multiset(kept) && k in kept ==> e.at <= k.at
  }

  predicate NotLater(g: File, f: File) {
    forall x, y :: x in Content(g) && y in Content(f) ==> x.at <= y.at
  }

  /** A file with an earlier name holds nothing later than a file with a later name. */
  predicate Consistent(files: seq<File>) {
    forall f, g :: f in files && g in files && Less(g.name, f.name) ==> NotLater(g, f)
  }

  ghost predicate NewestFirst(files: seq<File>) {
    forall i, j :: 0 <= i < j < |files| ==> Less(files[j].name, files[i].name)
  }

  lemma CutIsPicked(s: seq<Entry>, rest: seq<Entry>, limit: nat, kept: seq<Entry>)
    requires SortedBy(s, TimeFrom) && kept == (if |s| > limit then s[..limit] else s)
    requires rest == [] || |s| >= limit
    ensures Picked(kept, multiset(s) + multiset(rest), limit)
  {
    if |s| > limit { assert s == kept + s[limit..]; }
    assert |multiset(s)| == |s| && |multiset(rest)| == |rest|;
  }

  lemma ShownArePicked(files: seq<File>, limit: nat, kept: seq<Entry>, s: seq<Entry>) returns (n: nat)
    requires ShowsBy(files, limit, kept, s)
    ensures n <= |files| && (n == |files| || |s| >= limit)
    ensures multiset(s) == multiset(Readable(files[..n]))
    ensures multiset(Readable(files)) == multiset(s) + multiset(Readable(files[n..]))
    ensures Picked(kept, multiset(Readable(files)), limit)
  {
    hide Collect, Picked, SortedBy;
    n := CollectIsPrefix(files, limit, []);
    assert [] + Readable(files[..n]) == Readable(files[..n]);
    SameSize(s, Collect(files, limit, []));
    ReadableSplits(files, n);
    CutIsPicked(s, Readable(files[n..]), limit, kept);
  }

  lemma LeftOut(kept: seq<Entry>, cut: seq<Entry>, rest: seq<Entry>, e: Entry)
    requires e in multiset(kept + cut) + multiset(rest) - multiset(kept)
    ensures e in cut || e in rest
  {
    assert multiset(kept + cut) == multiset(kept) + multiset(cut);
  }

  lemma ConsistentShowsMostRecent(files: seq<File>, limit: nat, kept: seq<Entry>)
    requires NewestFirst(files) && Consistent(files) && Shows(files, limit, kept)
    ensures MostRecent(kept, multiset(Readable(files)), limit)
  {
    hide Collect, Readable, Picked, NewestFirst, Consistent;
    var s :| ShowsBy(files, limit, kept, s);
    var n := ShownArePicked(files, limit, kept, s);
    var rest := Readable(files[n..]);
    var cut := if |s| > limit then s[limit..] else [];
    assert s == kept + cut;
    forall e, k | e in multiset(Readable(files)) - multiset(kept) && k in kept ensures e.at <= k.at {
      LeftOut(kept, cut, rest, e);
      if e in cut {
        assert TimeFrom(k, e);
      } else {
        assert k in multiset(s);
        OlderFilesHoldNothingLater(files, n, e, k);
      }
    }
  }

  lemma OlderFilesHoldNothingLater(files: seq<File>, n: nat, e: Entry, k: Entry)
    requires NewestFirst(files) && Consistent(files) && n <= |files|
    requires e in Readable(files[n..]) && k in Readable(files[..n])
    ensures e.at <= k.at
  {
    hide Readable, Content, Less;
    var i := InReadable(files[n..], e);
    var j := InReadable(files[..n], k);
    assert Less(files[n + i].name, files[j].name);
    assert files[n + i] in files && files[j] in files;
    assert NotLater(files[n + i], files[j]);
  }

  /** Some order of the first files' entries is shown when the limit stops there. */
  lemma ShowsHead(files: seq<File>, m: nat) returns (kept: seq<Entry>)
    requires 1 <= m <= |files| && Content(files[m - 1]) != []
    ensures multiset(kept) == multiset(Readable(files[..m]))
    ensures Shows(files, |Readable(files[..m])|, kept)
  {
    hide Collect, Content, Readable, InsertionSort, TotalPreorder, SortedBy;
    var head := Readable(files[..m]);
    CollectStopsAt(files, m, []);
    assert [] + head == head;
    Preorders();
    InsertionSortSorts(head, TimeFrom);
    kept := InsertionSort(head, TimeFrom);
    SameSize(kept, head);
    hide ShowsBy;
    ShownWhole(files, kept);
  }

  lemma ShownWhole(files: seq<File>, kept: seq<Entry>)
    requires SortedBy(kept, TimeFrom) && multiset(kept) == multiset(Collect(files, |kept|, []))
    ensures Shows(files, |kept|, kept)
  {
    hide Collect, SortedBy;
    assert ShowsBy(files, |kept|, kept, kept);
  }

  lemma InconsistentMisses(files: seq<File>, i: nat, j: nat, x: Entry, y: Entry) returns (limit: nat, kept: seq<Entry>)
    requires i < j < |files| && x in Content(files[i]) && y in Content(files[j]) && x.at < y.at
    ensures Shows(files, limit, kept) && !MostRecent(kept, multiset(Readable(files)), limit)
  {
    hide Content, Readable, Shows, MostRecent;
    var head, rest := files[..i + 1], files[i + 1..];
    limit := |Readable(head)|;
    kept := ShowsHead(files, i + 1);
    ReadableSplits(files, i + 1);
    assert head[i] == files[i] && rest[j - i - 1] == files[j];
    ReadableHas(head, i, x);
    ReadableHas(rest, j - i - 1, y);
    Misses(Readable(head), Readable(rest), kept, x, y, limit);
  }

  lemma Misses(head: seq<Entry>, rest: seq<Entry>, kept: seq<Entry>, x: Entry, y: Entry, limit: nat)
    requires multiset(kept) == multiset(head) && x in head && y in rest && x.at < y.at
    ensures !MostRecent(kept, multiset(head + rest), limit)
  {
    assert multiset(head + rest) - multiset(kept) == multiset(rest);
    assert y in multiset(rest) && x in multiset(kept);
  }

  /** Stopping early is right for every limit exactly when the files are consistent. */
  lemma EarlyStopExactly(files: seq<File>)
    requires NewestFirst(files)
    ensures (forall limit: nat, kept :: Shows(files, limit, kept) ==>
               MostRecent(kept, multiset(Readable(files)), limit)) <==> Consistent(files)
  {
    hide Shows, MostRecent, Readable, Content;
    if Consistent(files) {
      forall limit: nat, kept | Shows(files, limit, kept)
        ensures MostRecent(kept, multiset(Readable(files)), limit)
      {
        ConsistentShowsMostRecent(files, limit, kept);
      }
    } else {
      var f, g :| f in files && g in files && Less(g.name, f.name) && !NotLater(g, f);
      var y, x :| y in Content(g) && x in Content(f) && !(y.at <= x.at);
      var i :| 0 <= i < |files| && files[i] == f;
      var j :| 0 <= j < |files| && files[j] == g;
      LessTotal(f.name, g.name);
      assert i < j;
      var limit, kept := InconsistentMisses(files, i, j, x, y);
    }
  }

  // ----- the command

  datatype Outcome = Shown(entries: seq<Entry>) | Panicked

  lemma DescendingIsStrict(dir: seq<File>, files: seq<File>)
    requires DistinctNames(dir) && multiset(files) == multiset(LogFiles(dir)) && SortedBy(files, NameFrom)
    ensures NewestFirst(files)
  {
    hide Less;
    DistinctStays(dir);
    DistinctPermutes(LogFiles(dir), files);
    forall i, j | 0 <= i < j < |files| ensures Less(files[j].name, files[i].name) {
      assert NameFrom(files[i], files[j]);
    }
  }

  lemma Twice(files: seq<File>, i: nat, j: nat)
    requires i < j < |files| && files[i] == files[j]
    ensures multiset(files)[files[i]] >= 2
  {
    assert files == files[..j] + files[j..];
    assert files[..j][i] == files[i] && files[j..][0] == files[j];
    assert files[i] in multiset(files[..j]) && files[i] in multiset(files[j..]);
  }

  lemma {:induction false} OnceEach(logs: seq<File>, f: File)
    requires DistinctNames(logs)
    ensures multiset(logs)[f] <= 1
  {
    if logs != [] {
      var prev, last := logs[..|logs| - 1], logs[|logs| - 1];
      OnceEach(prev, f);
      assert logs == prev + [last];
      if f == last {
        forall k | 0 <= k < |prev| ensures prev[k] != f { assert logs[k].name != last.name; }
        assert f !in multiset(prev);
      }
    }
  }

  lemma DistinctPermutes(logs: seq<File>, files: seq<File>)
    requires DistinctNames(logs) && multiset(files) == multiset(logs)
    ensures DistinctNames(files)
  {
    forall i, j | 0 <= i < j < |files| ensures files[i].name != files[j].name {
      OnceEach(logs, files[i]);
      if files[i] == files[j] {
        Twice(files, i, j);
      } else {
        assert files[i] in multiset(logs) && files[j] in multiset(logs);
        var a :| 0 <= a < |logs| && logs[a] == files[i];
        var b :| 0 <= b < |logs| && logs[b] == files[j];
        assert logs[a].name != logs[b].name by { if a < b {} else { assert b < a; } }
      }
    }
  }

  lemma {:induction false} DistinctStays(dir: seq<File>)
    requires DistinctNames(dir)
    ensures DistinctNames(LogFiles(dir))
    ensures forall i :: 0 <= i < |LogFiles(dir)| ==> LogFiles(dir)[i] in dir
  {
    if dir != [] {
      var prev, last := dir[..|dir| - 1], dir[|dir| - 1];
      DistinctStays(prev);
      var logs := LogFiles(prev);
      forall i | 0 <= i < |logs| ensures logs[i] in dir && logs[i].name != last.name {
        assert logs[i] in prev;
        var k :| 0 <= k < |prev| && prev[k] == logs[i];
        assert dir[k] == prev[k];
      }
    }
  }

  method GetLogFiles(dir: seq<File>) returns (files: seq<File>)
    requires DistinctNames(dir)
    ensures multiset(files) == multiset(LogFiles(dir)) && NewestFirst(files)
    ensures forall f :: f in files <==>
              f in dir && !f.isDir && |f.name| >= 6 && f.name[|f.name| - 6..] == ".jsonl"
  {
    files := [];
    for i := 0 to |dir|
      invariant files == LogFiles(dir[..i])
    {
      assert dir[..i + 1][..i] == dir[..i];
      if IsLog(dir[i]) {
        files := files + [dir[i]];
      }
    }
    assert dir[..|dir|] == dir;
    Preorders();
    files := Sort(files, NameFrom);
    DescendingIsStrict(dir, files);
    hide LogFiles, IsLog, NewestFirst, SortedBy;
    forall f
      ensures f in files <==> f in dir && !f.isDir && |f.name| >= 6 && f.name[|f.name| - 6..] == ".jsonl"
    {
      LogFilesExactly(dir, f);
      assert f in files <==> f in multiset(files);
      assert f in LogFiles(dir) <==> f in multiset(LogFiles(dir));
    }
  }

  method CollectEntries(files: seq<File>, limit: int) returns (entries: seq<Entry>)
    ensures entries == Collect(files, limit, [])
  {
    entries := [];
    for i := 0 to |files|
      invariant Collect(files, limit, []) == Collect(files[i..], limit, entries)
    {
      assert files[i..][1..] == files[i + 1..] && files[i..][0] == files[i];
      if files[i].content.None? {
        continue;
      }
      entries := entries + files[i].content.value;
      if |entries| >= limit {
        break;
      }
    }
  }

  /** A negative limit slices out of range as soon as there is a log file. Otherwise the
      entries shown are newest first and as many as the limit allows, and when the files
      are consistent no readable entry, opened or not, is later than one of them. */
  method ShowRecentLogs(dir: seq<File>, limit: int) returns (r: Outcome)
    requires DistinctNames(dir)
    ensures r.Panicked? <==> limit < 0 && LogFiles(dir) != []
    ensures LogFiles(dir) == [] ==> r == Shown([])
    ensures r.Shown? && limit >= 0 ==> Picked(r.entries, multiset(Readable(LogFiles(dir))), limit)
    ensures r.Shown? && limit >= 0 && Consistent(LogFiles(dir)) ==>
              MostRecent(r.entries, multiset(Readable(LogFiles(dir))), limit)
  {
    hide Collect, LogFiles, Readable, Consistent, Picked, MostRecent;
    var files := GetLogFiles(dir);
    SameSize(files, LogFiles(dir));
    if |files| == 0 {
      NothingToShow(LogFiles(dir), limit);
      return Shown([]);
    }
    var entries := CollectEntries(files, limit);
    Preorders();
    entries := Sort(entries, TimeFrom);
    var kept := entries;
    if |entries| > limit {
      if limit < 0 { return Panicked; }
      kept := entries[..limit];
    }
    if limit >= 0 {
      assert ShowsBy(files, limit, kept, entries);
      FilesToDirectory(files, LogFiles(dir), limit, kept);
    }
    return Shown(kept);
  }

  lemma NothingToShow(files: seq<File>, limit: int)
    requires files == []
    ensures limit >= 0 ==> MostRecent([], multiset(Readable(files)), limit)
  {
  }

  lemma FilesToDirectory(files: seq<File>, logs: seq<File>, limit: nat, kept: seq<Entry>)
    requires multiset(files) == multiset(logs) && NewestFirst(files) && Shows(files, limit, kept)
    ensures Picked(kept, multiset(Readable(logs)), limit)
    ensures Consistent(logs) ==> MostRecent(kept, multiset(Readable(logs)), limit)
  {
    hide Collect, Readable, Picked, NotLater, Less;
    ReadablePermutes(files, logs);
    var s :| ShowsBy(files, limit, kept, s);
    var n := ShownArePicked(files, limit, kept, s);
    if Consistent(logs) {
      forall f | f in files ensures f in logs { assert f in multiset(logs); }
      ConsistentShowsMostRecent(files, limit, kept);
    }
  }

  // ----- the writer

  /** One entry appended to the file of its date. */
  function Log(store: map<string, seq<Entry>>, e: Entry): map<string, seq<Entry>> {
    var name := FileName(e.date);
    store[name := (if name in store then store[name] else []) + [e]]
  }

  function LogAll(entries: seq<Entry>): map<string, seq<Entry>> {
    if entries == [] then map[] else Log(LogAll(entries[..|entries| - 1]), entries[|entries| - 1])
  }

  /** The entries of one file name, in the order they were logged. */
  function Of(entries: seq<Entry>, name: string): seq<Entry> {
    if entries == [] then []
    else
      Of(entries[..|entries| - 1], name)
      + if FileName(entries[|entries| - 1].date) == name then [entries[|entries| - 1]] else []
  }

  /** The store partitions what was logged by date and keeps its order. */
  lemma {:induction false} StorePartitions(entries: seq<Entry>, name: string)
    ensures (if name in LogAll(entries) then LogAll(entries)[name] else []) == Of(entries, name)
    ensures name in LogAll(entries) <==> Of(entries, name) != []
  {
    if entries != [] { StorePartitions(entries[..|entries| - 1], name); }
  }

  lemma {:induction false} OfExactly(entries: seq<Entry>, name: string, e: Entry)
    ensures e in Of(entries, name) <==> e in entries && FileName(e.date) == name
  {
    if entries != [] {
      OfExactly(entries[..|entries| - 1], name, e);
      assert entries == entries[..|entries| - 1] + [entries[|entries| - 1]];
    }
  }

  /** They keep that order, and no entry of the name is missing. */
  lemma OfInOrder(entries: seq<Entry>, name: string) returns (at: seq<nat>)
    ensures Selects(entries, Of(entries, name), (e: Entry) => FileName(e.date) == name, at)
  {
    at := FilterExactly(entries, (e: Entry) => FileName(e.date) == name);
    OfFilters(entries, name);
  }

  lemma {:induction false} OfFilters(entries: seq<Entry>, name: string)
    ensures Of(entries, name) == FilterSeq(entries, (e: Entry) => FileName(e.date) == name)
  {
    hide FileName;
    if entries != [] { OfFilters(entries[..|entries| - 1], name); }
  }

  /** The files hold the store, each name once, all of them readable. */
  predicate Holds(files: seq<File>, store: map<string, seq<Entry>>) {
    && (forall f :: f in files ==> f.name in store && f.content == Some(store[f.name]))
    && (forall name :: name in store ==> File(name, false, Some(store[name])) in files)
  }

  /** The node's calendar date never runs backwards from one instant to a later one. */
  predicate DatesFollowTime(entries: seq<Entry>) {
    forall x, y :: x in entries && y in entries && Before(x.date, y.date) ==> x.at <= y.at
  }

  /** Everything the writer leaves is a log file to the reader. */
  lemma WrittenIsLog(entries: seq<Entry>, files: seq<File>)
    requires Holds(files, LogAll(entries)) && NewestFirst(files)
    ensures LogFiles(files) == files
  {
    forall i | 0 <= i < |files| ensures IsLog(files[i]) {
      hide LogAll, Of, FileName, IsLog, Less;
      var f := files[i];
      var name := f.name;
      StorePartitions(entries, name);
      assert name in LogAll(entries);
      var e := Of(entries, name)[0];
      OfExactly(entries, name, e);
      var j :| 0 <= j < |files| && files[j] == File(name, false, Some(LogAll(entries)[name]));
      LessTotal(name, name);
      assert i == j;
      NamedLog(e.date, f);
    }
    AllLogs(files);
  }

  lemma NamedLog(d: Date, f: File)
    requires f.name == FileName(d) && !f.isDir
    ensures IsLog(f)
  {
    hide Digits, Year;
    var head := Year(d.year) + ("-" + (Digits(d.month, 2) + ("-" + Digits(d.day, 2))));
    assert f.name == head + SUFFIX;
  }

  lemma {:induction false} AllLogs(files: seq<File>)
    requires forall i :: 0 <= i < |files| ==> IsLog(files[i])
    ensures LogFiles(files) == files
  {
    hide IsLog;
    if files != [] { AllLogs(files[..|files| - 1]); }
  }

  /** What was logged is consistent exactly when dates follow time. */
  lemma WriterConsistentExactly(entries: seq<Entry>, files: seq<File>)
    requires Holds(files, LogAll(entries)) && forall e :: e in entries ==> Printable(e.date)
    ensures Consistent(files) <==> DatesFollowTime(entries)
  {
    hide LogAll, Less, FileName, Of;
    if Consistent(files) {
      forall x, y | x in entries && y in entries && Before(x.date, y.date) ensures x.at <= y.at {
        NamesSortAsDates(x.date, y.date);
        Logged(entries, x);
        Logged(entries, y);
        var store := LogAll(entries);
        var g := File(FileName(x.date), false, Some(store[FileName(x.date)]));
        var f := File(FileName(y.date), false, Some(store[FileName(y.date)]));
        assert g in files && f in files && NotLater(g, f);
      }
    }
    if DatesFollowTime(entries) {
      forall f, g | f in files && g in files && Less(g.name, f.name) ensures NotLater(g, f) {
        forall x, y | x in Content(g) && y in Content(f) ensures x.at <= y.at {
          StorePartitions(entries, g.name);
          StorePartitions(entries, f.name);
          OfExactly(entries, g.name, x);
          OfExactly(entries, f.name, y);
          NamesSortAsDates(x.date, y.date);
        }
      }
    }
  }

  lemma Logged(entries: seq<Entry>, e: Entry)
    requires e in entries
    ensures FileName(e.date) in LogAll(entries) && e in LogAll(entries)[FileName(e.date)]
  {
    hide LogAll, Of;
    StorePartitions(entries, FileName(e.date));
    OfExactly(entries, FileName(e.date), e);
  }

  lemma CountAppend(s: seq<Entry>, last: Entry, e: Entry)
    ensures multiset(s + [last])[e] == multiset(s)[e] + if last == e then 1 else 0
    ensures multiset(s + [])[e] == multiset(s)[e]
  {
    assert s + [] == s;
  }

  lemma {:induction false} OfKeepsCount(entries: seq<Entry>, e: Entry)
    ensures multiset(Of(entries, FileName(e.date)))[e] == multiset(entries)[e]
  {
    hide FileName;
    if entries != [] {
      var prev, last := entries[..|entries| - 1], entries[|entries| - 1];
      OfKeepsCount(prev, e);
      var name := FileName(e.date);
      assert Of(entries, name) == Of(prev, name) + if FileName(last.date) == name then [last] else [];
      hide Of;
      assert entries == prev + [last];
      CountAppend(prev, last, e);
      CountAppend(Of(prev, name), last, e);
    }
  }

  /** Reading every file back gives what was logged, each entry as often as it was. */
  lemma ReadBackConserves(entries: seq<Entry>, files: seq<File>)
    requires Holds(files, LogAll(entries)) && NewestFirst(files)
    ensures multiset(Readable(files)) == multiset(entries)
  {
    forall e: Entry ensures multiset(Readable(files))[e] == multiset(entries)[e] {
      CountsAgree(entries, files, e);
    }
  }

  lemma CountsAgree(entries: seq<Entry>, files: seq<File>, e: Entry)
    requires Holds(files, LogAll(entries)) && NewestFirst(files)
    ensures multiset(Readable(files))[e] == multiset(entries)[e]
  {
    hide Readable, LogAll, Of, FileName;
    var name := FileName(e.date);
    StorePartitions(entries, name);
    OfKeepsCount(entries, e);
    if name in LogAll(entries) {
      var i :| 0 <= i < |files| && files[i] == File(name, false, Some(LogAll(entries)[name]));
      ReadableWithout(files, i);
      var rest := files[..i] + files[i + 1..];
      if e in Readable(rest) {
        var k := InReadable(rest, e);
        OfOnly(entries, files, rest[k], e);
        var m := if k < i then k else k + 1;
        assert rest[k] == files[m] && m != i;
        LessTotal(name, name);
      }
    } else if e in Readable(files) {
      var k := InReadable(files, e);
      OfOnly(entries, files, files[k], e);
    }
  }

  lemma OfOnly(entries: seq<Entry>, files: seq<File>, f: File, e: Entry)
    requires Holds(files, LogAll(entries)) && f in files && e in Content(f)
    ensures f.name == FileName(e.date) && f.name in LogAll(entries)
  {
    hide LogAll, Of, FileName;
    StorePartitions(entries, f.name);
    OfExactly(entries, f.name, e);
  }

  /** From writing to reading: the most recent of all logged entries are shown, whatever the
      limit, exactly when dates follow time. */
  lemma LoggedThenShown(entries: seq<Entry>, files: seq<File>)
    requires Holds(files, LogAll(entries)) && NewestFirst(files) && forall e :: e in entries ==> Printable(e.date)
    ensures (forall limit: nat, kept :: Shows(files, limit, kept) ==> MostRecent(kept, multiset(entries), limit))
            <==> DatesFollowTime(entries)
  {
    hide Shows, MostRecent, Readable, Holds, LogAll, Consistent, DatesFollowTime;
    ReadBackConserves(entries, files);
    EarlyStopExactly(files);
    WriterConsistentExactly(entries, files);
  }

  // ----- the Gregorian calendar

  predicate IsLeap(year: int) { year % 4 == 0 && (year % 100 != 0 || year % 400 == 0) }

  function MonthLength(year: int, month: nat): nat {
    if month == 2 then (if IsLeap(year) then 29 else 28)
    else if month == 4 || month == 6 || month == 9 || month == 11 then 30 else 31
  }

  /** The Gregorian months and leap years. */
  lemma MonthsListed(year: int, month: nat)
    requires 1 <= month <= 12
    ensures MonthLength(year, month)
         == [31, 28, 31, 30, 31, 30, 31, 31, 30, 31, 30, 31][month - 1] + if month == 2 && IsLeap(year) then 1 else 0
    ensures year % 400 == 0 ==> IsLeap(year)
    ensures year % 100 == 0 && year % 400 != 0 ==> !IsLeap(year)
    ensures year % 100 != 0 ==> (IsLeap(year) <==> year % 4 == 0)
  {
  }

  predicate IsDate(d: Date) { 1 <= d.month <= 12 && 1 <= d.day <= MonthLength(d.year, d.month) }

  function NextDay(d: Date): (r: Date)
    requires IsDate(d)
    ensures IsDate(r) && Before(d, r)
  {
    if d.day < MonthLength(d.year, d.month) then d.(day := d.day + 1)
    else if d.month < 12 then Date(d.year, d.month + 1, 1)
    else Date(d.year + 1, 1, 1)
  }

  /** The next day is the earliest date after a date. */
  lemma NextDayExactly(d: Date, e: Date)
    requires IsDate(d) && IsDate(e) && Before(d, e)
    ensures IsDate(NextDay(d)) && Before(d, NextDay(d)) && (e == NextDay(d) || Before(NextDay(d), e))
  {
  }

  function PreviousDay(d: Date): (r: Date)
    requires IsDate(d)
    ensures IsDate(r) && Before(r, d) && NextDay(r) == d
  {
    if d.day > 1 then d.(day := d.day - 1)
    else if d.month > 1 then Date(d.year, d.month - 1, MonthLength(d.year, d.month - 1))
    else Date(d.year - 1, 12, 31)
  }

  /** The date of a day counted from 1 January 1970. */
  function Civil(day: int): (d: Date)
    ensures IsDate(d)
    decreases if day < 0 then -day else day
  {
    if day == 0 then Date(1970, 1, 1)
    else if day > 0 then NextDay(Civil(day - 1))
    else PreviousDay(Civil(day + 1))
  }

  lemma {:induction false} CivilIncreases(m: int, n: int)
    requires m < n
    ensures Before(Civil(m), Civil(n))
    decreases n - m
  {
    var d := Civil(n - 1);
    assert Civil(n) == NextDay(d) by {
      if n <= 0 { assert Civil(n - 1) == PreviousDay(Civil(n)); }
    }
    if m < n - 1 { CivilIncreases(m, n - 1); }
  }

  /** Days follow each other on the calendar, in both directions from 1 January 1970. */
  lemma CivilExactly(day: int)
    ensures Civil(0) == Date(1970, 1, 1) && Civil(day + 1) == NextDay(Civil(day))
  {
    if day < 0 { assert Civil(day) == PreviousDay(Civil(day + 1)); }
  }

  /** The day that a clock shows which is `offset` seconds ahead of UTC. */
  function LocalDay(at: int, offset: int): int { (at + offset) / 86400 }

  /** A day is 86400 seconds long and starts at midnight on the clock. */
  lemma LocalDayExactly(at: int, offset: int)
    ensures var midnight := LocalDay(at, offset) * 86400 - offset; midnight <= at < midnight + 86400
  {
  }

  function LocalDate(at: int, offset: int): Date { Civil(LocalDay(at, offset)) }

  /** The dates are those of a clock whose offset from UTC may change with time. */
  ghost predicate DatedBy(entries: seq<Entry>, offset: int -> int) {
    forall e :: e in entries ==> e.date == LocalDate(e.at, offset(e.at))
  }

  /** The day the clock shows never goes back. */
  ghost predicate NeverBack(offset: int -> int) {
    forall t, u :: t <= u ==> LocalDay(t, offset(t)) <= LocalDay(u, offset(u))
  }

  /** Dates follow time, whatever is logged and when, exactly for the clocks whose day never
      goes back: those that stay in one zone, and those whose changes never cross midnight
      backwards. */
  lemma ClockFollowsTimeExactly(offset: int -> int)
    ensures (forall entries :: DatedBy(entries, offset) ==> DatesFollowTime(entries)) <==> NeverBack(offset)
  {
    if NeverBack(offset) {
      forall entries | DatedBy(entries, offset) ensures DatesFollowTime(entries) {
        NeverBackFollows(entries, offset);
      }
    } else {
      var t, u :| t <= u && !(LocalDay(t, offset(t)) <= LocalDay(u, offset(u)));
      var x, y := Entry("x", t, LocalDate(t, offset(t))), Entry("y", u, LocalDate(u, offset(u)));
      CivilIncreases(LocalDay(u, offset(u)), LocalDay(t, offset(t)));
      hide LocalDate, LocalDay;
      assert Before(y.date, x.date) && x in [x, y] && y in [x, y];
      assert DatedBy([x, y], offset) && !DatesFollowTime([x, y]);
    }
  }

  lemma NeverBackFollows(entries: seq<Entry>, offset: int -> int)
    requires DatedBy(entries, offset) && NeverBack(offset)
    ensures DatesFollowTime(entries)
  {
    hide LocalDay;
    forall x, y | x in entries && y in entries && Before(x.date, y.date) ensures x.at <= y.at {
      var m, n := LocalDay(x.at, offset(x.at)), LocalDay(y.at, offset(y.at));
      if n < m { CivilIncreases(n, m); }
    }
  }

  /** A clock that stays at one offset from UTC suffices. */
  lemma FixedZoneFollowsTime(entries: seq<Entry>, offset: int)
    requires forall e :: e in entries ==> e.date == LocalDate(e.at, offset)
    ensures DatesFollowTime(entries)
  {
    var constantly: int -> int := t => offset;
    assert NeverBack(constantly);
    NeverBackFollows(entries, constantly);
  }

  lemma LocalPrintable(at: int, offset: int)
    ensures 0 <= LocalDate(at, offset).year < 10000 ==> Printable(LocalDate(at, offset))
  {
    assert IsDate(LocalDate(at, offset));
  }

  /** A clock that stays in one zone, set back or not, shows the most recent of all logged
      entries, in the years that print on four digits. */
  lemma FixedZoneShows(entries: seq<Entry>, files: seq<File>, offset: int, limit: nat, kept: seq<Entry>)
    requires Holds(files, LogAll(entries)) && NewestFirst(files) && Shows(files, limit, kept)
    requires forall e :: e in entries ==> e.date == LocalDate(e.at, offset) && 0 <= e.date.year < 10000
    ensures MostRecent(kept, multiset(entries), limit)
  {
    hide Shows, MostRecent, Holds, LogAll, DatesFollowTime, NewestFirst, LocalDate, Printable;
    forall e | e in entries ensures Printable(e.date) { LocalPrintable(e.at, offset); }
    FixedZoneFollowsTime(entries, offset);
    LoggedThenShown(entries, files);
  }

  // ----- a change of zone

  /** The same clock, set from twelve hours ahead of UTC to twelve behind within the hour,
      dates the later of two requests to the earlier day. */
  function BeforeChange(): Entry { Entry("a", 0, LocalDate(0, 43200)) }

  function AfterChange(): Entry { Entry("b", 3600, LocalDate(3600, -43200)) }

  lemma ChangedDates()
    ensures BeforeChange().date == Date(1970, 1, 1) && AfterChange().date == Date(1969, 12, 31)
  {
    assert LocalDay(0, 43200) == 0 && LocalDay(3600, -43200) == -1;
    assert Civil(-1) == PreviousDay(Civil(0));
  }

  /** The later request is in the file of the earlier day, which is not opened once the other
      file has filled the limit: the newest entry is missed. */
  lemma ZoneChangeWitness(files: seq<File>)
    requires files == [File(FileName(BeforeChange().date), false, Some([BeforeChange()])),
                       File(FileName(AfterChange().date), false, Some([AfterChange()]))]
    ensures Holds(files, LogAll([BeforeChange(), AfterChange()])) && NewestFirst(files)
    ensures Shows(files, 1, [BeforeChange()])
    ensures !MostRecent([BeforeChange()], multiset([BeforeChange(), AfterChange()]), 1)
  {
    hide FileName, LocalDate, Civil, Collect, LogAll, MostRecent, Less;
    var a, b := BeforeChange(), AfterChange();
    ChangedDates();
    NamesSortAsDates(b.date, a.date);
    assert Less(files[1].name, files[0].name);
    LogTwo(a, b);
    assert files[0] in files && files[1] in files;
    FirstFills(files, a);
    assert ShowsBy(files, 1, [a], [a]);
    assert [a] + [b] == [a, b];
    Misses([a], [b], [a], a, b, 1);
  }

  lemma LogTwo(a: Entry, b: Entry)
    requires FileName(a.date) != FileName(b.date)
    ensures LogAll([a, b]) == map[FileName(a.date) := [a], FileName(b.date) := [b]]
  {
    hide FileName;
    assert [a, b][..1] == [a] && [a][..0] == [] && [] + [a] == [a] && [] + [b] == [b];
    assert LogAll([a]) == map[FileName(a.date) := [a]];
  }

  lemma FirstFills(files: seq<File>, a: Entry)
    requires files != [] && files[0].content == Some([a])
    ensures Collect(files, 1, []) == [a]
  {
    assert [] + [a] == [a];
  }
}
