/** The recursive key codec over JSON trees, built on the key rewriters. */
module KeyCodec {
  import opened Wrappers
  import opened KeyCase

  /** A JavaScript value.  An object is its own properties in order; InvalidDate is what
      `new Date` makes of a string it cannot parse. */
  datatype Json =
    | Null | Undefined | Bool(b: bool) | Num(n: real) | Str(s: string)
    | Date(time: int) | InvalidDate
    | Arr(items: seq<Json>)
    | Obj(entries: seq<Property>)

  datatype Property = Property(key: string, value: Json)

  /** The platform's date parsing and toISOString. */
  datatype Dates = Dates(parse: string -> Option<int>, format: int -> string)

  /** toSnakeCase leaves date strings alone; toCamelCase parses them. */
  datatype Direction = ToSnake | ToCamel

  function Opposite(d: Direction): Direction { if d == ToSnake then ToCamel else ToSnake }

  function Rewrite(d: Direction, key: string): string {
    if d == ToSnake then Snake(key) else Camel(key)
  }

  const PROTO := "__proto__"

  /** 'D' stands for a digit. */
  const ISO_PATTERN := "DDDD-DD-DDTDD:DD:DD"

  predicate IsIsoDate(s: string) {
    && |s| >= |ISO_PATTERN|
    && forall i :: 0 <= i < |ISO_PATTERN| ==>
         if ISO_PATTERN[i] == 'D' then '0' <= s[i] <= '9' else s[i] == ISO_PATTERN[i]
  }

  function Position(entries: seq<Property>, key: string): (i: nat)
    ensures i <= |entries|
    ensures i < |entries| ==> entries[i].key == key
    ensures i == |entries| <==> forall j :: 0 <= j < |entries| ==> entries[j].key != key
  {
    if entries == [] then 0
    else if entries[0].key == key then 0
    else 1 + Position(entries[1..], key)
  }

  /** Property assignment on a plain object: overwrite in place or append; assigning to
      `__proto__` sets the prototype and creates no property. */
  function Assign(entries: seq<Property>, key: string, value: Json): seq<Property> {
    if key == PROTO then entries
    else
      var i := Position(entries, key);
      if i < |entries| then entries[i := Property(key, value)] else entries + [Property(key, value)]
  }

  /** transformKeys with the key rewriter and date parsing of the direction. */
  function Transform(lib: Dates, d: Direction, j: Json): Json
    decreases j
  {
    match j
    case Str(s) =>
      if d == ToCamel && IsIsoDate(s) then
        (match lib.parse(s) case Some(t) => Date(t) case None => InvalidDate)
      else j
    case Date(t) => Str(lib.format(t))
    case Arr(items) => Arr(TransformItems(lib, d, items))
    case Obj(entries) => Obj(TransformEntries(lib, d, entries))
    case _ => j
  }

  function TransformItems(lib: Dates, d: Direction, items: seq<Json>): seq<Json>
    decreases items
  {
    if items == [] then []
    else TransformItems(lib, d, items[..|items| - 1]) + [Transform(lib, d, items[|items| - 1])]
  }

  function TransformEntries(lib: Dates, d: Direction, entries: seq<Property>): seq<Property>
    decreases entries
  {
    if entries == [] then []
    else
      var e := entries[|entries| - 1];
      Assign(TransformEntries(lib, d, entries[..|entries| - 1]), Rewrite(d, e.key), Transform(lib, d, e.value))
  }

  /** Serialising an invalid date throws. */
  predicate Throws(j: Json) {
    match j
    case InvalidDate => true
    case Arr(items) => exists x <- items :: Throws(x)
    case Obj(entries) => exists e <- entries :: Throws(e.value)
    case _ => false
  }

  ghost predicate Distinct(entries: seq<Property>) {
    forall i, k :: 0 <= i < k < |entries| ==> entries[i].key != entries[k].key
  }

  /** The properties of one object have distinct keys, as in every JavaScript object. */
  ghost predicate WellFormed(j: Json) {
    match j
    case Arr(items) => forall i :: 0 <= i < |items| ==> WellFormed(items[i])
    case Obj(entries) => Distinct(entries) && forall i :: 0 <= i < |entries| ==> WellFormed(entries[i].value)
    case _ => true
  }

  /** Keys that survive the direction followed by its opposite. */
  predicate SafeKey(d: Direction, key: string) {
    if d == ToSnake then Clean(key) && key != "_Proto__" else NoUpper(key) && key != PROTO
  }

  /** What must hold of a tree, leaf by leaf and key by key, for the round trip that starts
      with `d`.  On trees without dates and ISO-date strings it is about keys only. */
  predicate Safe(lib: Dates, d: Direction, j: Json) {
    match j
    case Str(s) =>
      IsIsoDate(s) ==>
        d == ToCamel && lib.parse(s).Some? && lib.format(lib.parse(s).value) == s
    case Date(t) =>
      d == ToSnake && IsIsoDate(lib.format(t)) && lib.parse(lib.format(t)) == Some(t)
    case InvalidDate => false
    case Arr(items) => forall i :: 0 <= i < |items| ==> Safe(lib, d, items[i])
    case Obj(entries) =>
      forall i :: 0 <= i < |entries| ==> SafeKey(d, entries[i].key) && Safe(lib, d, entries[i].value)
    case _ => true
  }

  function RoundTrip(lib: Dates, d: Direction, j: Json): Json {
    Transform(lib, Opposite(d), Transform(lib, d, j))
  }

  /** The round trip throws nothing and gives the tree back. */
  predicate Survives(lib: Dates, d: Direction, j: Json) { !Throws(j) && RoundTrip(lib, d, j) == j }

  // ----- leaves

  predicate IsDigit(c: char) { '0' <= c <= '9' }

  /** The date pattern, character by character: only the beginning of the text matters. */
  lemma IsoDateExactly(s: string)
    ensures IsIsoDate(s) <==>
            && |s| >= 19
            && IsDigit(s[0]) && IsDigit(s[1]) && IsDigit(s[2]) && IsDigit(s[3]) && s[4] == '-'
            && IsDigit(s[5]) && IsDigit(s[6]) && s[7] == '-' && IsDigit(s[8]) && IsDigit(s[9]) && s[10] == 'T'
            && IsDigit(s[11]) && IsDigit(s[12]) && s[13] == ':' && IsDigit(s[14]) && IsDigit(s[15]) && s[16] == ':'
            && IsDigit(s[17]) && IsDigit(s[18])
  {
    assert |ISO_PATTERN| == 19;
    assert ISO_PATTERN[..10] == "DDDD-DD-DD" && ISO_PATTERN[10..] == "TDD:DD:DD";
    assert forall i :: 0 <= i < 19 ==>
        (ISO_PATTERN[i] == 'D' <==> i !in {4, 7, 10, 13, 16}) && (i == 10 ==> ISO_PATTERN[i] == 'T')
        && (i in {4, 7} ==> ISO_PATTERN[i] == '-') && (i in {13, 16} ==> ISO_PATTERN[i] == ':');
  }

  /** What becomes of a leaf: a date is written as text, and on the way to camelCase a text
      that starts like an ISO date is read as one; every other leaf stays as it is. */
  lemma LeafExactly(lib: Dates, d: Direction, j: Json)
    requires !j.Arr? && !j.Obj?
    ensures j.Date? ==> Transform(lib, d, j) == Str(lib.format(j.time))
    ensures j.Str? && d == ToCamel && IsIsoDate(j.s) ==>
              Transform(lib, d, j) == match lib.parse(j.s) case Some(t) => Date(t) case None => InvalidDate
    ensures Transform(lib, d, j) != j ==> j.Date? || (j.Str? && d == ToCamel && IsIsoDate(j.s))
  {
  }

  // ----- keys

  lemma ProtoKeys()
    ensures Camel(PROTO) == "_Proto__" && Snake("_Proto__") == PROTO && !Clean(PROTO)
  {
    assert PROTO[1] == '_' && IsLower(PROTO[2]);
    CamelKeeps("roto__");
    SnakeKeeps("roto__");
    CamelProto();
    SnakeProto();
  }

  lemma CamelProto()
    requires Camel("roto__") == "roto__"
    ensures Camel(PROTO) == "_Proto__"
  {
    hide Camel;
    var tail := "_proto__";
    assert tail[2..] == "roto__" && PROTO[1..] == tail;
    CamelFirst(tail);
    CamelFirst(PROTO);
  }

  lemma SnakeProto()
    requires Snake("roto__") == "roto__"
    ensures Snake("_Proto__") == PROTO
  {
    var tail := "Proto__";
    assert tail[1..] == "roto__";
    assert Snake(tail) == ['_', 'p'] + "roto__";
    assert "_Proto__"[1..] == tail;
    assert Snake("_Proto__") == ['_'] + Snake(tail);
  }

  /** An object whose only key rewrites to the accessor comes back empty. */
  lemma ProtoWitness(lib: Dates)
    ensures RoundTrip(lib, ToSnake, Obj([Property("_Proto__", Null)])) == Obj([])
  {
    hide Snake, Camel;
    ProtoKeys();
    var entries := [Property("_Proto__", Null)];
    assert entries[..0] == [];
    assert TransformEntries(lib, ToSnake, entries) == Assign([], PROTO, Null) == [];
    assert TransformEntries(lib, ToCamel, []) == [];
  }

  /** A safe key comes back, and neither form of it is the prototype accessor. */
  lemma SafeKeyReturns(d: Direction, key: string)
    requires SafeKey(d, key)
    ensures Rewrite(Opposite(d), Rewrite(d, key)) == key && Rewrite(d, key) != PROTO && key != PROTO
  {
    ProtoKeys();
    KeyRoundTrips(key);
    CamelIsClean(key);
  }

  /** Any key that a round trip can produce is safe. */
  lemma ProducedKeyIsSafe(d: Direction, k0: string)
    requires Rewrite(d, k0) != PROTO && Rewrite(Opposite(d), Rewrite(d, k0)) != PROTO
    ensures SafeKey(d, Rewrite(Opposite(d), Rewrite(d, k0)))
  {
    ProtoKeys();
    var k1 := Rewrite(d, k0);
    SnakeHasNoUpper(k0);
    SnakeHasNoUpper(k1);
    CamelIsClean(k1);
    KeyRoundTrips(k1);
  }

  /** Distinct safe keys stay distinct, so no property of an object is lost. */
  lemma SafeKeysStayDistinct(d: Direction, a: string, b: string)
    requires SafeKey(d, a) && SafeKey(d, b) && a != b
    ensures Rewrite(d, a) != Rewrite(d, b)
  {
    SafeKeyReturns(d, a);
    SafeKeyReturns(d, b);
  }

  // ----- objects

  /** When the rewritten keys do not collide, the object is rewritten entry by entry. */
  lemma {:induction false} EntriesOneByOne(lib: Dates, d: Direction, entries: seq<Property>)
    requires forall i :: 0 <= i < |entries| ==> Rewrite(d, entries[i].key) != PROTO
    requires forall i, k :: 0 <= i < k < |entries| ==> Rewrite(d, entries[i].key) != Rewrite(d, entries[k].key)
    ensures var r := TransformEntries(lib, d, entries);
            && |r| == |entries|
            && forall i :: 0 <= i < |r| ==>
                 r[i] == Property(Rewrite(d, entries[i].key), Transform(lib, d, entries[i].value))
  {
    hide Rewrite;
    if entries != [] {
      var n := |entries| - 1;
      EntriesOneByOne(lib, d, entries[..n]);
      assert TransformEntries(lib, d, entries)
          == Assign(TransformEntries(lib, d, entries[..n]), Rewrite(d, entries[n].key),
                    Transform(lib, d, entries[n].value));
      hide Transform, TransformEntries;
    }
  }

  lemma {:induction false} EntriesDistinct(lib: Dates, d: Direction, entries: seq<Property>)
    ensures Distinct(TransformEntries(lib, d, entries))
  {
    if entries != [] {
      hide Rewrite, Transform;
      EntriesDistinct(lib, d, entries[..|entries| - 1]);
    }
  }

  /** What one more property does to the rewritten object: `__proto__` is lost, a new key is
      appended, and a key already there has its value replaced where it stands. */
  lemma CollisionOverwrites(lib: Dates, d: Direction, entries: seq<Property>, e: Property)
    ensures var r, t := TransformEntries(lib, d, entries), TransformEntries(lib, d, entries + [e]);
            var p := Property(Rewrite(d, e.key), Transform(lib, d, e.value));
            && (p.key == "__proto__" ==> t == r)
            && (p.key != "__proto__" && (forall q <- r :: q.key != p.key) ==> t == r + [p])
            && (forall i :: p.key != "__proto__" && 0 <= i < |r| && r[i].key == p.key ==> t == r[i := p])
  {
    hide Rewrite, Transform;
    assert (entries + [e])[..|entries|] == entries;
    EntriesDistinct(lib, d, entries);
  }

  lemma SafeEntries(lib: Dates, d: Direction, entries: seq<Property>)
    requires Distinct(entries) && forall i :: 0 <= i < |entries| ==> SafeKey(d, entries[i].key)
    ensures var r := TransformEntries(lib, Opposite(d), TransformEntries(lib, d, entries));
            && |r| == |entries|
            && forall i :: 0 <= i < |r| ==> r[i] == Property(entries[i].key, RoundTrip(lib, d, entries[i].value))
  {
    forall i | 0 <= i < |entries|
      ensures Rewrite(d, entries[i].key) != PROTO
      ensures Rewrite(Opposite(d), Rewrite(d, entries[i].key)) == entries[i].key != PROTO
    {
      SafeKeyReturns(d, entries[i].key);
    }
    hide Transform, TransformEntries, Rewrite;
    EntriesOneByOne(lib, d, entries);
    EntriesOneByOne(lib, Opposite(d), TransformEntries(lib, d, entries));
  }

  /** Every key of a rewritten object is the rewriting of one of its keys. */
  lemma {:induction false} KeysComeFrom(lib: Dates, d: Direction, entries: seq<Property>, i: nat)
    returns (k: nat)
    requires i < |TransformEntries(lib, d, entries)|
    ensures k < |entries| && TransformEntries(lib, d, entries)[i].key == Rewrite(d, entries[k].key) != PROTO
  {
    hide Rewrite, Transform;
    var n := |entries| - 1;
    var before := TransformEntries(lib, d, entries[..n]);
    var key := Rewrite(d, entries[n].key);
    assert TransformEntries(lib, d, entries) == Assign(before, key, Transform(lib, d, entries[n].value));
    if i < |before| && (key == PROTO || i != Position(before, key)) {
      k := KeysComeFrom(lib, d, entries[..n], i);
    } else {
      k := n;
    }
  }

  lemma RoundTripKeysAreSafe(lib: Dates, d: Direction, entries: seq<Property>, i: nat)
    requires i < |TransformEntries(lib, Opposite(d), TransformEntries(lib, d, entries))|
    ensures SafeKey(d, TransformEntries(lib, Opposite(d), TransformEntries(lib, d, entries))[i].key)
  {
    hide TransformEntries, Rewrite, SafeKey;
    var k := KeysComeFrom(lib, Opposite(d), TransformEntries(lib, d, entries), i);
    var m := KeysComeFrom(lib, d, entries, k);
    ProducedKeyIsSafe(d, entries[m].key);
  }

  lemma {:induction false} ItemsOneByOne(lib: Dates, d: Direction, items: seq<Json>)
    ensures var r := TransformItems(lib, d, items);
            |r| == |items| && forall i :: 0 <= i < |r| ==> r[i] == Transform(lib, d, items[i])
  {
    if items == [] {
      assert TransformItems(lib, d, items) == [];
    } else {
      hide Transform, TransformItems;
      ItemsOneByOne(lib, d, items[..|items| - 1]);
      ItemsNext(lib, d, items);
    }
  }

  lemma ItemsNext(lib: Dates, d: Direction, items: seq<Json>)
    requires items != []
    ensures var n := |items| - 1;
            TransformItems(lib, d, items) == TransformItems(lib, d, items[..n]) + [Transform(lib, d, items[n])]
  {
    hide Transform;
  }

  lemma RoundTripItems(lib: Dates, d: Direction, items: seq<Json>)
    ensures var r := TransformItems(lib, Opposite(d), TransformItems(lib, d, items));
            |r| == |items| && forall i :: 0 <= i < |r| ==> r[i] == RoundTrip(lib, d, items[i])
  {
    hide Transform, TransformItems;
    ItemsOneByOne(lib, d, items);
    ItemsOneByOne(lib, Opposite(d), TransformItems(lib, d, items));
  }

  // ----- trees

  /** toCamelCase(toSnakeCase(j)) gives j back without throwing, and likewise
      toSnakeCase(toCamelCase(j)), exactly on the safe trees. */
  lemma {:induction false} CodecRoundTrips(lib: Dates, d: Direction, j: Json)
    requires WellFormed(j)
    ensures !Throws(j) && RoundTrip(lib, d, j) == j <==> Safe(lib, d, j)
    decreases j
  {
    match j
    case Arr(items) =>
      forall i | 0 <= i < |items|
        ensures Survives(lib, d, items[i]) <==> Safe(lib, d, items[i])
      {
        CodecRoundTrips(lib, d, items[i]);
      }
      ArrayRoundTrips(lib, d, items);
    case Obj(entries) =>
      forall i | 0 <= i < |entries|
        ensures Survives(lib, d, entries[i].value) <==> Safe(lib, d, entries[i].value)
      {
        CodecRoundTrips(lib, d, entries[i].value);
      }
      ObjectRoundTrips(lib, d, entries);
    case _ =>
  }

  lemma ArrayRoundTrips(lib: Dates, d: Direction, items: seq<Json>)
    requires forall i :: 0 <= i < |items| ==>
               (Survives(lib, d, items[i]) <==> Safe(lib, d, items[i]))
    ensures !Throws(Arr(items)) && RoundTrip(lib, d, Arr(items)) == Arr(items) <==> Safe(lib, d, Arr(items))
  {
    RoundTripItems(lib, d, items);
    var r := TransformItems(lib, Opposite(d), TransformItems(lib, d, items));
    assert RoundTrip(lib, d, Arr(items)) == Arr(r);
    assert Throws(Arr(items)) <==> exists i :: 0 <= i < |items| && Throws(items[i]);
    assert r == items <==> forall i :: 0 <= i < |items| ==> r[i] == items[i];
    hide TransformItems, RoundTrip;
  }

  lemma ObjectMeans(lib: Dates, d: Direction, entries: seq<Property>)
    ensures var r := TransformEntries(lib, Opposite(d), TransformEntries(lib, d, entries));
            RoundTrip(lib, d, Obj(entries)) == Obj(r)
    ensures Throws(Obj(entries)) <==> exists i :: 0 <= i < |entries| && Throws(entries[i].value)
    ensures Safe(lib, d, Obj(entries)) <==>
            forall i :: 0 <= i < |entries| ==> SafeKey(d, entries[i].key) && Safe(lib, d, entries[i].value)
  {
    hide TransformEntries;
  }

  lemma ObjectRoundTrips(lib: Dates, d: Direction, entries: seq<Property>)
    requires Distinct(entries)
    requires forall i :: 0 <= i < |entries| ==>
               (Survives(lib, d, entries[i].value) <==> Safe(lib, d, entries[i].value))
    ensures !Throws(Obj(entries)) && RoundTrip(lib, d, Obj(entries)) == Obj(entries) <==> Safe(lib, d, Obj(entries))
  {
    hide Transform, TransformEntries, RoundTrip, Safe, Throws, SafeKey;
    ObjectMeans(lib, d, entries);
    var r := TransformEntries(lib, Opposite(d), TransformEntries(lib, d, entries));
    if forall i :: 0 <= i < |entries| ==> SafeKey(d, entries[i].key) {
      SafeEntries(lib, d, entries);
      assert r == entries <==>
        forall i :: 0 <= i < |entries| ==> RoundTrip(lib, d, entries[i].value) == entries[i].value;
    } else if r == entries {
      forall i | 0 <= i < |entries| ensures SafeKey(d, entries[i].key) {
        RoundTripKeysAreSafe(lib, d, entries, i);
      }
    }
  }

  /** Without dates and ISO-date strings only the keys matter. */
  predicate DateFree(j: Json) {
    match j
    case Str(s) => !IsIsoDate(s)
    case Date(_) => false
    case InvalidDate => false
    case Arr(items) => forall i :: 0 <= i < |items| ==> DateFree(items[i])
    case Obj(entries) => forall i :: 0 <= i < |entries| ==> DateFree(entries[i].value)
    case _ => true
  }

  predicate SafeKeys(d: Direction, j: Json) {
    match j
    case Arr(items) => forall i :: 0 <= i < |items| ==> SafeKeys(d, items[i])
    case Obj(entries) => forall i :: 0 <= i < |entries| ==> SafeKey(d, entries[i].key) && SafeKeys(d, entries[i].value)
    case _ => true
  }

  lemma {:induction false} DateFreeSafe(lib: Dates, d: Direction, j: Json)
    requires DateFree(j)
    ensures Safe(lib, d, j) <==> SafeKeys(d, j)
  {
    match j
    case Arr(items) =>
      forall i | 0 <= i < |items| ensures Safe(lib, d, items[i]) <==> SafeKeys(d, items[i]) {
        DateFreeSafe(lib, d, items[i]);
      }
    case Obj(entries) =>
      forall i | 0 <= i < |entries| ensures Safe(lib, d, entries[i].value) <==> SafeKeys(d, entries[i].value) {
        DateFreeSafe(lib, d, entries[i].value);
      }
    case _ =>
  }

  /** The documented round trips, for every date-free tree and any date library. */
  lemma DateFreeRoundTrips(lib: Dates, d: Direction, j: Json)
    requires WellFormed(j) && DateFree(j)
    ensures !Throws(j) && RoundTrip(lib, d, j) == j <==> SafeKeys(d, j)
  {
    CodecRoundTrips(lib, d, j);
    DateFreeSafe(lib, d, j);
  }
}
