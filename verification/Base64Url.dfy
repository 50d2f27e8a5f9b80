/** Base64url with the padding stripped and restored, over bytes, and its use for the
    integers of a JSON Web Key. */
module Base64Url {
  import opened Wrappers

  type Byte = x: int | 0 <= x < 256

  type Sextet = x: int | 0 <= x < 64

  const PAD := '='

  /** The URL-safe alphabet of RFC 4648, section 5. */
  function Char(v: Sextet): char {
    if v < 26 then ('A' as int + v) as char
    else if v < 52 then ('a' as int + v - 26) as char
    else if v < 62 then ('0' as int + v - 52) as char
    else if v == 62 then '-' else '_'
  }

  function Value(c: char): Option<Sextet> {
    if 'A' <= c <= 'Z' then Some(c as int - 'A' as int)
    else if 'a' <= c <= 'z' then Some(c as int - 'a' as int + 26)
    else if '0' <= c <= '9' then Some(c as int - '0' as int + 52)
    else if c == '-' then Some(62) else if c == '_' then Some(63) else None
  }

  /** The characters from `first` on are those of `part`. */
  predicate Listed(first: nat, part: string) {
    forall i :: 0 <= i < |part| ==> first + i < 64 && Char(first + i) == part[i]
  }

  /** The alphabet in the order the RFC lists it. */
  lemma AlphabetListed()
    ensures Listed(0, "ABCDEFGHIJKLM") && Listed(13, "NOPQRSTUVWXYZ")
    ensures Listed(26, "abcdefghijklm") && Listed(39, "nopqrstuvwxyz") && Listed(52, "0123456789-_")
  {
  }

  /** The decoder also takes the standard alphabet's last two characters. */
  function Lenient(c: char): Option<Sextet> {
    if c == '+' then Some(62) else if c == '/' then Some(63) else Value(c)
  }

  lemma AlphabetInverse(v: Sextet, c: char)
    ensures Value(Char(v)) == Some(v) && Char(v) != PAD
    ensures Value(c).Some? ==> Char(Value(c).value) == c && Lenient(c) == Value(c) && c != PAD
  {
  }

  function Chars(v: seq<Sextet>): (s: string)
    ensures |s| == |v| && forall i :: 0 <= i < |s| ==> s[i] == Char(v[i])
  {
    if v == [] then "" else Chars(v[..|v| - 1]) + [Char(v[|v| - 1])]
  }

  predicate InAlphabet(s: string) {
    forall i :: 0 <= i < |s| ==> Value(s[i]).Some?
  }

  function Values(s: string): (v: seq<Sextet>)
    requires InAlphabet(s)
    ensures |v| == |s| && forall i :: 0 <= i < |v| ==> v[i] == Value(s[i]).value
  {
    if s == "" then [] else Values(s[..|s| - 1]) + [Value(s[|s| - 1]).value]
  }

  /** Regroup bytes into sextets: three bytes give four; the last group may be short. */
  function Sextets(b: seq<Byte>): seq<Sextet> {
    if b == [] then []
    else if |b| == 1 then [b[0] / 4, b[0] % 4 * 16]
    else if |b| == 2 then [b[0] / 4, b[0] % 4 * 16 + b[1] / 16, b[1] % 16 * 4]
    else [b[0] / 4, b[0] % 4 * 16 + b[1] / 16, b[1] % 16 * 4 + b[2] / 64, b[2] % 64] + Sextets(b[3..])
  }

  function Octet0(p: int, q: int): int { p * 4 + q / 16 }

  function Octet1(q: int, r: int): int { q % 16 * 16 + r / 4 }

  function Octet2(r: int, t: int): int { r % 4 * 64 + t }

  /** Regroup sextets into bytes; bits that fill no byte are dropped. */
  function Bytes(v: seq<Sextet>): seq<Byte> {
    if |v| < 2 then []
    else if |v| == 2 then [Octet0(v[0], v[1])]
    else if |v| == 3 then [Octet0(v[0], v[1]), Octet1(v[1], v[2])]
    else [Octet0(v[0], v[1]), Octet1(v[1], v[2]), Octet2(v[2], v[3])] + Bytes(v[4..])
  }

  function Pads(k: nat): string { seq(k, i => PAD) }

  /** How much padding `-len(s) % 4` is; Python's remainder is never negative here. */
  function Missing(n: nat): nat { (4 - n % 4) % 4 }

  /** urlsafe_b64encode: the sextets' characters, padded to a multiple of four. */
  function Encode(b: seq<Byte>): string {
    var s := Chars(Sextets(b));
    s + Pads(Missing(|s|))
  }

  function RStrip(s: string): (r: string)
    ensures r <= s
  {
    if s != "" && s[|s| - 1] == PAD then RStrip(s[..|s| - 1]) else s
  }

  function UrlEncode(b: seq<Byte>): string { RStrip(Encode(b)) }

  /** urlsafe_b64decode without validation, one character at a time: a character outside
      the alphabet is skipped, enough padding after a group of two or three ends the text,
      and a text that ends inside a group is an error. */
  function Scan(s: string, got: seq<Sextet>, pads: nat): Option<seq<Byte>> {
    if s == "" then
      if |got| % 4 == 0 then Some(Bytes(got)) else None
    else if s[0] == PAD then
      if |got| % 4 < 2 then Scan(s[1..], got, pads)
      else if |got| % 4 + pads + 1 >= 4 then Some(Bytes(got))
      else Scan(s[1..], got, pads + 1)
    else match Lenient(s[0])
      case None => Scan(s[1..], got, pads)
      case Some(v) => Scan(s[1..], got + [v], 0)
  }

  function Decode(s: string): Option<seq<Byte>> { Scan(s, [], 0) }

  /** A character that is neither padding nor in one of the two alphabets. */
  predicate Foreign(c: char) { c != PAD && c != '+' && c != '/' && Value(c).None? }

  /** The lenient decoder takes '+' for '-' and '/' for '_', and a foreign character makes no
      difference wherever it stands. */
  lemma {:induction false} ScanLeniently(a: string, c: char, b: string, got: seq<Sextet>, pads: nat)
    ensures Scan(a + ['+'] + b, got, pads) == Scan(a + ['-'] + b, got, pads)
    ensures Scan(a + ['/'] + b, got, pads) == Scan(a + ['_'] + b, got, pads)
    ensures Foreign(c) ==> Scan(a + [c] + b, got, pads) == Scan(a + b, got, pads)
  {
    hide Bytes;
    if a == "" {
      ScanFirst('+', b, got, pads);
      ScanFirst('-', b, got, pads);
      ScanFirst('/', b, got, pads);
      ScanFirst('_', b, got, pads);
      ScanFirst(c, b, got, pads);
      assert a + b == b;
      assert a + ['+'] + b == ['+'] + b && a + ['-'] + b == ['-'] + b;
      assert a + ['/'] + b == ['/'] + b && a + ['_'] + b == ['_'] + b && a + [c] + b == [c] + b;
    } else {
      var d, t := a[0], a[1..];
      if d != PAD {
        ScanLeniently(t, c, b, if Lenient(d).Some? then got + [Lenient(d).value] else got,
                      if Lenient(d).Some? then 0 else pads);
      } else if |got| % 4 < 2 {
        ScanLeniently(t, c, b, got, pads);
      } else {
        ScanLeniently(t, c, b, got, pads + 1);
      }
      ScanMoves(a, ['+'] + b, got, pads);
      ScanMoves(a, ['-'] + b, got, pads);
      ScanMoves(a, ['/'] + b, got, pads);
      ScanMoves(a, ['_'] + b, got, pads);
      ScanMoves(a, [c] + b, got, pads);
      ScanMoves(a, b, got, pads);
      hide Scan, Lenient, Value;
      Regroup(a, '+', b);
      Regroup(a, '-', b);
      Regroup(a, '/', b);
      Regroup(a, '_', b);
      Regroup(a, c, b);
    }
  }

  lemma Regroup(a: string, c: char, b: string)
    requires a != ""
    ensures a + [c] + b == a + ([c] + b) && a[1..] + [c] + b == a[1..] + ([c] + b)
  {
  }

  lemma ScanFirst(c: char, b: string, got: seq<Sextet>, pads: nat)
    ensures c != PAD ==> Scan([c] + b, got, pads) ==
                         match Lenient(c) case None => Scan(b, got, pads) case Some(v) => Scan(b, got + [v], 0)
  {
    assert ([c] + b)[1..] == b;
    hide Bytes;
  }

  /** One step of the scan, whatever follows the first character. */
  lemma ScanMoves(a: string, rest: string, got: seq<Sextet>, pads: nat)
    requires a != ""
    ensures var d, t := a[0], a[1..] + rest;
            Scan(a + rest, got, pads) ==
            if d == PAD then
              (if |got| % 4 < 2 then Scan(t, got, pads)
               else if |got| % 4 + pads + 1 >= 4 then Some(Bytes(got)) else Scan(t, got, pads + 1))
            else match Lenient(d) case None => Scan(t, got, pads) case Some(v) => Scan(t, got + [v], 0)
  {
    assert (a + rest)[1..] == a[1..] + rest;
    hide Bytes;
  }

  /** The same of a whole text. */
  lemma DecodeLeniently(a: string, c: char, b: string)
    ensures Decode(a + ['+'] + b) == Decode(a + ['-'] + b) && Decode(a + ['/'] + b) == Decode(a + ['_'] + b)
    ensures Foreign(c) ==> Decode(a + [c] + b) == Decode(a + b)
  {
    hide Scan;
    ScanLeniently(a, c, b, [], 0);
  }

  function UrlDecode(s: string): Option<seq<Byte>> {
    Decode(s + Pads(Missing(|s|)))
  }

  // ----- bits

  lemma GroupBits(x: Byte, y: Byte, z: Byte)
    ensures x / 4 * 4 + (x % 4 * 16 + y / 16) / 16 == x
    ensures (x % 4 * 16 + y / 16) % 16 * 16 + (y % 16 * 4 + z / 64) / 4 == y
    ensures (y % 16 * 4 + z / 64) % 4 * 64 + z % 64 == z
  {
  }

  lemma SextetBits(p: Sextet, q: Sextet, r: Sextet, t: Sextet)
    ensures 0 <= Octet0(p, q) < 256 && 0 <= Octet1(q, r) < 256 && 0 <= Octet2(r, t) < 256
    ensures Octet0(p, q) / 4 == p
    ensures Octet0(p, q) % 4 * 16 + Octet1(q, r) / 16 == q
    ensures Octet1(q, r) % 16 * 4 + Octet2(r, t) / 64 == r
    ensures Octet2(r, t) % 64 == t
    ensures Octet0(p, q) % 4 * 16 == q <==> q % 16 == 0
    ensures Octet1(q, r) % 16 * 4 == r <==> r % 4 == 0
  {
  }

  lemma BytesHead(p: Sextet, q: Sextet, r: Sextet, t: Sextet, rest: seq<Sextet>)
    ensures Bytes([p, q, r, t] + rest) == [Octet0(p, q), Octet1(q, r), Octet2(r, t)] + Bytes(rest)
  {
    hide Octet0, Octet1, Octet2;
    assert ([p, q, r, t] + rest)[4..] == rest;
  }

  lemma SextetsHead(x: Byte, y: Byte, z: Byte, rest: seq<Byte>)
    ensures Sextets([x, y, z] + rest)
         == [x / 4, x % 4 * 16 + y / 16, y % 16 * 4 + z / 64, z % 64] + Sextets(rest)
  {
    assert ([x, y, z] + rest)[3..] == rest;
  }

  lemma GroupOctets(x: Byte, y: Byte, z: Byte) returns (p: Sextet, q: Sextet, r: Sextet, t: Sextet)
    ensures p == x / 4 && q == x % 4 * 16 + y / 16 && r == y % 16 * 4 + z / 64 && t == z % 64
    ensures Octet0(p, q) == x && Octet1(q, r) == y && Octet2(r, t) == z
  {
    GroupBits(x, y, z);
    p, q, r, t := x / 4, x % 4 * 16 + y / 16, y % 16 * 4 + z / 64, z % 64;
  }

  lemma BytesGroup(x: Byte, y: Byte, z: Byte, rest: seq<Byte>)
    ensures Bytes(Sextets([x, y, z] + rest)) == [x, y, z] + Bytes(Sextets(rest))
    ensures |Sextets([x, y, z] + rest)| == 4 + |Sextets(rest)|
  {
    hide Bytes, Sextets, Octet0, Octet1, Octet2;
    var p, q, r, t := GroupOctets(x, y, z);
    SextetsHead(x, y, z, rest);
    assert Sextets([x, y, z] + rest) == [p, q, r, t] + Sextets(rest);
    BytesHead(p, q, r, t, Sextets(rest));
  }

  lemma {:induction false} BytesOfSextets(b: seq<Byte>)
    ensures Bytes(Sextets(b)) == b && |Sextets(b)| == (4 * |b| + 2) / 3
  {
    if |b| >= 3 {
      hide Bytes, Sextets;
      BytesOfSextets(b[3..]);
      BytesGroup(b[0], b[1], b[2], b[3..]);
      assert b == [b[0], b[1], b[2]] + b[3..];
    } else if |b| == 2 {
      GroupBits(b[0], b[1], 0);
    } else if |b| == 1 {
      GroupBits(b[0], 0, 0);
    }
  }

  /** The bits of the last sextet that fill no byte are zero. */
  predicate UnusedBitsZero(v: seq<Sextet>) {
    && (|v| % 4 == 2 ==> v[|v| - 1] % 16 == 0)
    && (|v| % 4 == 3 ==> v[|v| - 1] % 4 == 0)
  }

  lemma SextetsGroup(p: Sextet, q: Sextet, r: Sextet, t: Sextet, rest: seq<Sextet>)
    ensures Sextets(Bytes([p, q, r, t] + rest)) == [p, q, r, t] + Sextets(Bytes(rest))
  {
    SextetBits(p, q, r, t);
    var v := [p, q, r, t] + rest;
    assert v[4..] == rest;
    var b := Bytes(v);
    assert b == [Octet0(p, q), Octet1(q, r), Octet2(r, t)] + Bytes(rest);
    assert b[3..] == Bytes(rest);
  }

  lemma ShortGroups(p: Sextet, q: Sextet, r: Sextet)
    ensures Sextets(Bytes([p, q])) == [p, q] <==> q % 16 == 0
    ensures Sextets(Bytes([p, q, r])) == [p, q, r] <==> r % 4 == 0
  {
    SextetBits(p, q, r, 0);
    assert Sextets(Bytes([p, q])) == [p, Octet0(p, q) % 4 * 16];
    var x, y := Octet0(p, q), Octet1(q, r);
    assert Bytes([p, q, r]) == [x, y];
    assert Sextets([x, y]) == [p, q, y % 16 * 4];
  }

  lemma {:induction false} SextetsOfBytes(v: seq<Sextet>)
    requires |v| % 4 != 1
    ensures Sextets(Bytes(v)) == v <==> UnusedBitsZero(v)
  {
    hide Sextets, Bytes;
    if |v| >= 4 {
      SextetsOfBytes(v[4..]);
      GroupKeepsEquality(v);
    } else if |v| == 3 {
      ShortGroups(v[0], v[1], v[2]);
      assert v == [v[0], v[1], v[2]];
    } else if |v| == 2 {
      ShortGroups(v[0], v[1], 0);
      assert v == [v[0], v[1]];
    } else {
      EmptyGroup();
    }
  }

  lemma EmptyGroup()
    ensures Bytes([]) == [] && Sextets([]) == []
  {
  }

  lemma GroupKeepsEquality(v: seq<Sextet>)
    requires |v| >= 4
    ensures Sextets(Bytes(v)) == v <==> Sextets(Bytes(v[4..])) == v[4..]
  {
    hide Sextets, Bytes;
    var head := [v[0], v[1], v[2], v[3]];
    SextetsGroup(v[0], v[1], v[2], v[3], v[4..]);
    HeadAndRest(v);
    SameHead(head, Sextets(Bytes(v[4..])), v[4..]);
  }

  lemma HeadAndRest(v: seq<Sextet>)
    requires |v| >= 4
    ensures [v[0], v[1], v[2], v[3]] + v[4..] == v
  {
  }

  lemma SameHead(head: seq<Sextet>, x: seq<Sextet>, y: seq<Sextet>)
    ensures head + x == head + y <==> x == y
  {
    assert (head + x)[|head|..] == x && (head + y)[|head|..] == y;
  }

  // ----- the same bits in the same order

  function FromSextets(v: seq<Sextet>): nat {
    if v == [] then 0 else FromSextets(v[..|v| - 1]) * 64 + v[|v| - 1]
  }

  function FromBytes(b: seq<Byte>): nat {
    if b == [] then 0 else FromBytes(b[..|b| - 1]) * 256 + b[|b| - 1]
  }

  lemma SplitHead(b: seq<Byte>, last: seq<Byte>)
    requires |b| >= 3
    ensures |Sextets(b)| >= 4 && Sextets(b)[4..] == Sextets(b[3..])
    ensures Sextets(b + last) == Sextets(b)[..4] + Sextets(b[3..] + last)
  {
    assert (b + last)[3..] == b[3..] + last;
  }

  lemma {:induction false} SextetsSplit(b: seq<Byte>, last: seq<Byte>)
    requires |b| % 3 == 0
    ensures Sextets(b + last) == Sextets(b) + Sextets(last)
  {
    hide Sextets;
    if b == [] {
      assert b + last == last;
      EmptyNumbers();
    } else {
      SextetsSplit(b[3..], last);
      SplitHead(b, last);
    }
  }

  lemma BytesDigits(b: seq<Byte>, x: Byte, y: Byte, z: Byte)
    ensures FromBytes(b + [x]) == FromBytes(b) * 256 + x
    ensures FromBytes(b + [x, y]) == (FromBytes(b) * 256 + x) * 256 + y
    ensures FromBytes(b + [x, y, z]) == ((FromBytes(b) * 256 + x) * 256 + y) * 256 + z
  {
    assert (b + [x])[..|b|] == b && b + [x, y] == b + [x] + [y] && b + [x, y, z] == b + [x, y] + [z];
    assert (b + [x] + [y])[..|b| + 1] == b + [x] && (b + [x, y] + [z])[..|b| + 2] == b + [x, y];
  }

  lemma SextetsDigits(v: seq<Sextet>, p: Sextet, q: Sextet, r: Sextet, t: Sextet)
    ensures FromSextets(v + [p, q]) == (FromSextets(v) * 64 + p) * 64 + q
    ensures FromSextets(v + [p, q, r]) == ((FromSextets(v) * 64 + p) * 64 + q) * 64 + r
    ensures FromSextets(v + [p, q, r, t]) == (((FromSextets(v) * 64 + p) * 64 + q) * 64 + r) * 64 + t
  {
    assert (v + [p])[..|v|] == v && v + [p, q] == v + [p] + [q];
    assert v + [p, q, r] == v + [p, q] + [r] && v + [p, q, r, t] == v + [p, q, r] + [t];
    assert (v + [p] + [q])[..|v| + 1] == v + [p] && (v + [p, q] + [r])[..|v| + 2] == v + [p, q];
    assert (v + [p, q, r] + [t])[..|v| + 3] == v + [p, q, r];
  }

  lemma LastGroup(x: Byte, y: Byte, z: Byte)
    ensures Sextets([x]) == [x / 4, x % 4 * 16]
    ensures Sextets([x, y]) == [x / 4, x % 4 * 16 + y / 16, y % 16 * 4]
    ensures Sextets([x, y, z]) == [x / 4, x % 4 * 16 + y / 16, y % 16 * 4 + z / 64, z % 64]
  {
    assert [x, y, z][3..] == [];
  }

  lemma LastDigits(v: nat, x: Byte, y: Byte, z: Byte)
    ensures (v * 64 + x / 4) * 64 + x % 4 * 16 == (v * 256 + x) * 16
    ensures ((v * 64 + x / 4) * 64 + (x % 4 * 16 + y / 16)) * 64 + y % 16 * 4 == ((v * 256 + x) * 256 + y) * 4
    ensures (((v * 64 + x / 4) * 64 + (x % 4 * 16 + y / 16)) * 64 + (y % 16 * 4 + z / 64)) * 64 + z % 64
            == ((v * 256 + x) * 256 + y) * 256 + z
  {
  }

  /** The sextets are the bytes' bits from left to right: read as numbers, most significant
      first, both are the same but for the zero bits that fill the last sextet. */
  lemma {:induction false} SameBits(b: seq<Byte>)
    ensures FromSextets(Sextets(b)) == FromBytes(b) * (if |b| % 3 == 0 then 1 else if |b| % 3 == 1 then 16 else 4)
  {
    hide Sextets, FromSextets, FromBytes;
    var k := if |b| % 3 != 0 || b == [] then |b| % 3 else 3;
    var c := b[..|b| - k];
    var v := Sextets(c);
    SextetsSplit(c, b[|b| - k..]);
    assert b == c + b[|b| - k..];
    if b == [] {
      EmptyNumbers();
    } else {
      SameBits(c);
      var x, y, z := b[|b| - k], if k > 1 then b[|b| - k + 1] else 0, if k > 2 then b[|b| - k + 2] else 0;
      BytesDigits(c, x, y, z);
      LastGroup(x, y, z);
      LastDigits(FromBytes(c), x, y, z);
      SextetsDigits(v, x / 4, x % 4 * 16 + y / 16, y % 16 * 4 + z / 64, z % 64);
      if k == 1 {
        assert b[|b| - k..] == [x];
        SextetsDigits(v, x / 4, x % 4 * 16, 0, 0);
      } else if k == 2 {
        assert b[|b| - k..] == [x, y];
        SextetsDigits(v, x / 4, x % 4 * 16 + y / 16, y % 16 * 4, 0);
      } else {
        assert b[|b| - k..] == [x, y, z];
      }
    }
  }

  lemma EmptyNumbers()
    ensures Sextets([]) == [] && FromSextets([]) == 0 && FromBytes([]) == 0
  {
  }

  // ----- text

  lemma ValuesOfChars(v: seq<Sextet>)
    ensures InAlphabet(Chars(v)) && Values(Chars(v)) == v
  {
    forall i | 0 <= i < |v| ensures Value(Chars(v)[i]) == Some(v[i]) { AlphabetInverse(v[i], PAD); }
  }

  lemma CharsOfValues(s: string)
    requires InAlphabet(s)
    ensures Chars(Values(s)) == s
  {
    forall i | 0 <= i < |s| ensures Chars(Values(s))[i] == s[i] { AlphabetInverse(0, s[i]); }
  }

  lemma {:induction false} StripPads(s: string, k: nat)
    requires InAlphabet(s)
    ensures RStrip(s + Pads(k)) == s
  {
    if k == 0 {
      assert s + Pads(0) == s;
      if s != "" { AlphabetInverse(0, s[|s| - 1]); }
    } else {
      StripPads(s, k - 1);
      var t := s + Pads(k);
      assert t[|t| - 1] == PAD && t[..|t| - 1] == s + Pads(k - 1);
    }
  }

  /** The decoder collects the alphabet characters it reads. */
  lemma {:induction false} ScanAlphabet(s: string, t: string, got: seq<Sextet>)
    requires InAlphabet(s)
    ensures Scan(s + t, got, 0) == Scan(t, got + Values(s), 0)
  {
    hide Bytes, Lenient, Value, Char;
    if s == "" {
      assert s + t == t && got + Values(s) == got;
    } else {
      AlphabetInverse(0, s[0]);
      var v := Value(s[0]).value;
      assert (s + t)[1..] == s[1..] + t;
      ScanAlphabet(s[1..], t, got + [v]);
      assert got + [v] + Values(s[1..]) == got + Values(s);
    }
  }

  /** A run of padding ends a group of two or three and is ignored elsewhere. */
  lemma {:induction false} ScanRun(k: nat, got: seq<Sextet>, pads: nat)
    requires pads + |got| % 4 < 4
    ensures Scan(seq(k, i => PAD), got, pads) ==
            if |got| % 4 == 0 || (|got| % 4 >= 2 && |got| % 4 + pads + k >= 4) then Some(Bytes(got)) else None
    decreases k
  {
    hide Bytes;
    if k > 0 {
      var s := seq(k, i => PAD);
      assert s[1..] == seq(k - 1, i => PAD);
      if |got| % 4 < 2 {
        ScanRun(k - 1, got, pads);
      } else if |got| % 4 + pads + 1 < 4 {
        ScanRun(k - 1, got, pads + 1);
      }
    }
  }

  lemma ScanPads(got: seq<Sextet>)
    ensures Scan(Pads(Missing(|got|)), got, 0) == if |got| % 4 != 1 then Some(Bytes(got)) else None
  {
    hide Bytes, Scan;
    ScanRun(Missing(|got|), got, 0);
  }

  /** The stripped encoding has ceil(4n/3) alphabet characters, and padding it up to a
      multiple of four restores the padded encoding. */
  lemma PaddingRestored(b: seq<Byte>)
    ensures UrlEncode(b) == Chars(Sextets(b)) && InAlphabet(UrlEncode(b))
    ensures |UrlEncode(b)| == (4 * |b| + 2) / 3
    ensures UrlEncode(b) + Pads(Missing(|UrlEncode(b)|)) == Encode(b)
  {
    ValuesOfChars(Sextets(b));
    BytesOfSextets(b);
    StripPads(Chars(Sextets(b)), Missing(|Sextets(b)|));
  }

  /** Text of the alphabet decodes exactly when its length is not 1 modulo 4. */
  lemma DecodeAlphabet(s: string)
    requires InAlphabet(s)
    ensures Decode(s + Pads(Missing(|s|))) == if |s| % 4 != 1 then Some(Bytes(Values(s))) else None
  {
    hide Scan, Bytes, Pads, Missing;
    ScanAlphabet(s, Pads(Missing(|s|)), []);
    assert [] + Values(s) == Values(s);
    ScanPads(Values(s));
  }

  /** Decoding gives back every byte string, from the stripped and from the padded form. */
  lemma RoundTrip(b: seq<Byte>)
    ensures UrlDecode(UrlEncode(b)) == Some(b)
    ensures UrlDecode(Encode(b)) == Some(b)
  {
    hide UrlEncode, Encode, Decode, Sextets, Chars, Pads, Missing, InAlphabet;
    DecodePadded(b);
    PaddingRestored(b);
    PaddedLength(UrlEncode(b));
  }

  lemma DecodePadded(b: seq<Byte>)
    ensures Decode(Encode(b)) == Some(b)
  {
    hide UrlEncode, Encode, Decode, Sextets, Bytes, Chars, Values, Pads, Missing, InAlphabet;
    PaddingRestored(b);
    BytesOfSextets(b);
    ValuesOfChars(Sextets(b));
    DecodeAlphabet(UrlEncode(b));
  }

  lemma PaddedLength(s: string)
    ensures var t := s + Pads(Missing(|s|)); t + Pads(Missing(|t|)) == t
  {
  }

  /** Re-encoding what was decoded gives the text back exactly when its unused bits are zero. */
  lemma DecodeThenEncode(s: string)
    requires InAlphabet(s) && |s| % 4 != 1
    ensures UrlDecode(s).Some?
    ensures UrlEncode(UrlDecode(s).value) == s <==> UnusedBitsZero(Values(s))
  {
    hide Sextets, Bytes, UnusedBitsZero, Decode, RStrip;
    DecodeAlphabet(s);
    var b := Bytes(Values(s));
    PaddingRestored(b);
    SextetsOfBytes(Values(s));
    CharsOfValues(s);
    ValuesOfChars(Sextets(b));
  }

  // ----- integers

  function BitLength(v: nat): nat { if v == 0 then 0 else 1 + BitLength(v / 2) }

  /** int.to_bytes(n, 'big'), of a value that fits. */
  function ToBytes(v: nat, n: nat): (r: seq<Byte>)
    ensures |r| == n
  {
    if n == 0 then [] else ToBytes(v / 256, n - 1) + [v % 256]
  }

  function ByteLength(v: nat): nat { (BitLength(v) + 7) / 8 }

  function IntToBase64Url(v: nat): string { UrlEncode(ToBytes(v, ByteLength(v))) }

  lemma BitLengthByte(v: nat)
    requires v > 0
    ensures v < 256 ==> 1 <= BitLength(v) <= 8
    ensures v >= 256 ==> BitLength(v) == 8 + BitLength(v / 256)
  {
    var v1 := v / 2;
    var v2 := v1 / 2;
    var v3 := v2 / 2;
    var v4 := v3 / 2;
    var v5 := v4 / 2;
    var v6 := v5 / 2;
    var v7 := v6 / 2;
    var v8 := v7 / 2;
    assert BitLength(v) == 1 + BitLength(v1);
    assert v4 == v / 16 && v8 == v4 / 16 == v / 256;
    assert BitLength(v1) == if v1 == 0 then 0 else 1 + BitLength(v2);
    assert BitLength(v2) == if v2 == 0 then 0 else 1 + BitLength(v3);
    assert BitLength(v3) == if v3 == 0 then 0 else 1 + BitLength(v4);
    assert BitLength(v4) == if v4 == 0 then 0 else 1 + BitLength(v5);
    assert BitLength(v5) == if v5 == 0 then 0 else 1 + BitLength(v6);
    assert BitLength(v6) == if v6 == 0 then 0 else 1 + BitLength(v7);
    assert BitLength(v7) == if v7 == 0 then 0 else 1 + BitLength(v8);
  }

  lemma ByteLengthStep(v: nat)
    requires v > 0
    ensures ByteLength(v) == 1 + ByteLength(v / 256)
  {
    BitLengthByte(v);
  }

  /** The byte length is exactly enough: the bytes carry the value, and no fewer would. */
  lemma {:induction false} BytesCarryValue(v: nat)
    ensures FromBytes(ToBytes(v, ByteLength(v))) == v
    ensures v > 0 ==> ByteLength(v) > 0 && ToBytes(v, ByteLength(v))[0] != 0
  {
    if v > 0 {
      ByteLengthStep(v);
      BytesCarryValue(v / 256);
      var b := ToBytes(v, ByteLength(v));
      assert b[..|b| - 1] == ToBytes(v / 256, ByteLength(v / 256));
      if v / 256 == 0 { assert ByteLength(v / 256) == 0; }
    }
  }

  /** Decoding the text gives the integer back, for every integer, and a positive one is
      encoded without a leading zero octet. */
  lemma IntRoundTrip(v: nat)
    ensures var r := UrlDecode(IntToBase64Url(v)); r.Some? && FromBytes(r.value) == v
    ensures v > 0 ==> var b := UrlDecode(IntToBase64Url(v)).value; b != [] && b[0] != 0
  {
    RoundTrip(ToBytes(v, ByteLength(v)));
    BytesCarryValue(v);
  }

  /** The octets RFC 7518, section 2, asks for: big-endian, as few as possible, one zero
      octet for zero. */
  function RfcOctets(v: nat): seq<Byte> {
    if v < 256 then [v] else RfcOctets(v / 256) + [v % 256]
  }

  lemma {:induction false} OctetsAgree(v: nat)
    requires v > 0
    ensures ToBytes(v, ByteLength(v)) == RfcOctets(v)
  {
    ByteLengthStep(v);
    if v >= 256 {
      OctetsAgree(v / 256);
    } else {
      assert ByteLength(v / 256) == 0;
    }
  }

  /** The text is a valid Base64urlUInt exactly for the positive integers; zero gives the
      empty text instead of "AA". */
  lemma RfcExactly(v: nat)
    ensures IntToBase64Url(v) == UrlEncode(RfcOctets(v)) <==> v > 0
    ensures IntToBase64Url(0) == ""
  {
    if v > 0 { OctetsAgree(v); }
    PaddingRestored([]);
    PaddingRestored([0]);
  }
}
