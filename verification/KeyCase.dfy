/** The two key rewriters of the TypeScript SDK: snake_case to camelCase and back, as
    left-to-right replacements of non-overlapping matches, with their memo caches. */
module KeyCase {
  predicate IsLower(c: char) { 'a' <= c <= 'z' }

  predicate IsUpper(c: char) { 'A' <= c <= 'Z' }

  function ToUpper(c: char): char
    requires IsLower(c)
  {
    (c as int - 32) as char
  }

  function ToLower(c: char): char
    requires IsUpper(c)
  {
    (c as int + 32) as char
  }

  /** The letters of `lower` and `upper` are each other's other case, in order. */
  predicate Cases(lower: string, upper: string) {
    && |lower| == |upper|
    && forall i :: 0 <= i < |lower| ==>
         && IsLower(lower[i]) && ToUpper(lower[i]) == upper[i]
         && IsUpper(upper[i]) && ToLower(upper[i]) == lower[i]
  }

  /** The letters one by one. */
  lemma LettersListed()
    ensures Cases("abcdefghijklm", "ABCDEFGHIJKLM") && Cases("nopqrstuvwxyz", "NOPQRSTUVWXYZ")
  {
    LettersToM();
    LettersFromN();
    hide Cases;
  }

  lemma LettersToM()
    ensures Cases("abcdefghijklm", "ABCDEFGHIJKLM")
  {
  }

  lemma LettersFromN()
    ensures Cases("nopqrstuvwxyz", "NOPQRSTUVWXYZ")
  {
  }

  /** No other character counts as a letter: there are twenty-six of each case. */
  lemma NoOtherLetters(c: char)
    ensures IsLower(c) ==> 0 <= c as int - 97 < 26
    ensures IsUpper(c) ==> 0 <= c as int - 65 < 26
  {
  }

  /** Replace every underscore-letter pair by the upper-case letter. */
  function Camel(s: string): string {
    if |s| >= 2 && s[0] == '_' && IsLower(s[1]) then [ToUpper(s[1])] + Camel(s[2..])
    else if s == "" then ""
    else [s[0]] + Camel(s[1..])
  }

  /** Replace every upper-case letter by an underscore and the lower-case letter. */
  function Snake(s: string): string {
    if s == "" then ""
    else if IsUpper(s[0]) then ['_', ToLower(s[0])] + Snake(s[1..])
    else [s[0]] + Snake(s[1..])
  }

  /** No underscore is followed by a lower-case letter. */
  predicate Clean(s: string) {
    forall i :: 0 <= i < |s| - 1 ==> !(s[i] == '_' && IsLower(s[i + 1]))
  }

  predicate NoUpper(s: string) {
    forall i :: 0 <= i < |s| ==> !IsUpper(s[i])
  }

  predicate StartsPair(s: string) { |s| >= 2 && s[0] == '_' && IsLower(s[1]) }

  lemma CamelFirst(s: string)
    requires s != ""
    ensures StartsPair(s) ==> |s| >= 2 && IsLower(s[1]) && Camel(s) == [ToUpper(s[1])] + Camel(s[2..])
    ensures !StartsPair(s) ==> Camel(s) == [s[0]] + Camel(s[1..])
    ensures Camel("") == ""
  {
  }

  /** No pair begins at the end of `a` and ends in `b`. */
  predicate Apart(a: string, b: string) { a == "" || b == "" || a[|a| - 1] != '_' || !IsLower(b[0]) }

  lemma ConcatFirst(a: string, b: string)
    requires a != "" && Apart(a, b)
    ensures StartsPair(a + b) <==> StartsPair(a)
    ensures (a + b)[0] == a[0] && (a + b)[1..] == a[1..] + b && Apart(a[1..], b)
    ensures StartsPair(a) ==> |a| >= 2 && (a + b)[1] == a[1] && (a + b)[2..] == a[2..] + b && Apart(a[2..], b)
  {
  }

  lemma Reassociate(x: string, y: string, z: string)
    ensures x + (y + z) == x + y + z
  {
  }

  lemma {:induction false} CamelConcat(a: string, b: string)
    requires Apart(a, b)
    ensures Camel(a + b) == Camel(a) + Camel(b)
  {
    hide Camel, ToUpper, StartsPair, Apart;
    if a == "" {
      CamelFirst("a");
      assert a + b == b && "" + Camel(b) == Camel(b);
    } else {
      CamelFirst(a);
      CamelFirst(a + b);
      ConcatFirst(a, b);
      var n := if StartsPair(a) then 2 else 1;
      CamelConcat(a[n..], b);
      Reassociate(Camel(a)[..1], Camel(a[n..]), Camel(b));
    }
  }

  lemma {:induction false} SnakeConcat(a: string, b: string)
    ensures Snake(a + b) == Snake(a) + Snake(b)
  {
    if a == "" {
      assert a + b == b;
    } else {
      assert (a + b)[1..] == a[1..] + b;
      SnakeConcat(a[1..], b);
    }
  }

  /** What snakeToCamel does: wherever an underscore stands before a lower-case letter the two
      become that letter's upper case, and a string without such a place stays as it is. */
  lemma CamelExactly(a: string, c: char, b: string)
    ensures IsLower(c) ==> Camel(a + ['_', c] + b) == Camel(a) + [ToUpper(c)] + Camel(b)
    ensures Clean(a) ==> Camel(a) == a
  {
    if IsLower(c) {
      var pair := ['_', c];
      CamelConcat(a, pair);
      assert (a + pair)[|a + pair| - 1] == c;
      CamelConcat(a + pair, b);
      assert pair[2..] == "" && Camel(pair) == [ToUpper(c)] + Camel("");
    }
    if Clean(a) { CamelKeeps(a); }
  }

  lemma {:induction false} CamelKeeps(s: string)
    requires Clean(s)
    ensures Camel(s) == s
  {
    if s != "" {
      assert s == [s[0]] + s[1..];
      CamelKeeps(s[1..]);
    }
  }

  /** What camelToSnake does: every upper-case letter becomes an underscore and its lower case,
      and a string without upper-case letters stays as it is. */
  lemma SnakeExactly(a: string, c: char, b: string)
    ensures IsUpper(c) ==> Snake(a + [c] + b) == Snake(a) + ['_', ToLower(c)] + Snake(b)
    ensures NoUpper(a) ==> Snake(a) == a
  {
    SnakeConcat(a, [c]);
    SnakeConcat(a + [c], b);
    assert [c][1..] == "";
    if NoUpper(a) { SnakeKeeps(a); }
  }

  lemma {:induction false} SnakeKeeps(s: string)
    requires NoUpper(s)
    ensures Snake(s) == s
  {
    if s != "" {
      assert s == [s[0]] + s[1..];
      SnakeKeeps(s[1..]);
    }
  }

  /** The documented examples. */
  lemma KeyExamples()
    ensures Camel("created_at") == "createdAt" && Snake("createdAt") == "created_at"
    ensures Camel("full_name") == "fullName" && Snake("fullName") == "full_name"
  {
    hide Camel, Snake;
    CamelWords("created", 'a', "t");
    CamelWords("full", 'n', "ame");
    SnakeWords("created", 'A', "t");
    SnakeWords("full", 'N', "ame");
    assert "created" + ['_', 'a'] + "t" == "created_at" && "created" + ['A'] + "t" == "createdAt";
    assert "full" + ['_', 'n'] + "ame" == "full_name" && "full" + ['N'] + "ame" == "fullName";
  }

  lemma CamelWords(a: string, c: char, b: string)
    requires Clean(a) && IsLower(c) && Clean(b)
    ensures Camel(a + ['_', c] + b) == a + [ToUpper(c)] + b
  {
    CamelExactly(a, c, b);
    CamelKeeps(b);
  }

  lemma SnakeWords(a: string, c: char, b: string)
    requires NoUpper(a) && IsUpper(c) && NoUpper(b)
    ensures Snake(a + [c] + b) == a + ['_', ToLower(c)] + b
  {
    SnakeExactly(a, c, b);
    SnakeKeeps(b);
  }

  lemma {:induction false} CamelSnake(s: string)
    requires Clean(s)
    ensures Camel(Snake(s)) == s
  {
    if s != "" {
      CamelSnake(s[1..]);
      var rest := Snake(s[1..]);
      assert s == [s[0]] + s[1..];
      if IsUpper(s[0]) {
        assert Snake(s)[2..] == rest && Snake(s)[0] == '_' && Snake(s)[1] == ToLower(s[0]);
      } else {
        assert Snake(s)[1..] == rest && Snake(s)[0] == s[0];
        assert s[0] == '_' && |s| > 1 ==> !IsLower(s[1]);
        assert s[0] == '_' && rest != "" ==> !IsLower(rest[0]);
      }
    }
  }

  lemma {:induction false} SnakeCamel(s: string)
    requires NoUpper(s)
    ensures Snake(Camel(s)) == s
  {
    if |s| >= 2 && s[0] == '_' && IsLower(s[1]) {
      SnakeCamel(s[2..]);
      assert Camel(s)[1..] == Camel(s[2..]);
      assert s == ['_', s[1]] + s[2..];
    } else if s != "" {
      SnakeCamel(s[1..]);
      assert Camel(s)[1..] == Camel(s[1..]);
      assert s == [s[0]] + s[1..];
    }
  }

  lemma {:induction false} CamelIsClean(s: string)
    ensures Clean(Camel(s))
    ensures Camel(s) != "" && IsLower(Camel(s)[0]) ==> IsLower(s[0])
  {
    if |s| >= 2 && s[0] == '_' && IsLower(s[1]) {
      CamelIsClean(s[2..]);
    } else if s != "" {
      CamelIsClean(s[1..]);
    }
  }

  lemma {:induction false} SnakeHasNoUpper(s: string)
    ensures NoUpper(Snake(s))
  {
    if s != "" { SnakeHasNoUpper(s[1..]); }
  }

  /** The rewriters undo each other exactly on the strings without the other's pattern. */
  lemma KeyRoundTrips(s: string)
    ensures Camel(Snake(s)) == s <==> Clean(s)
    ensures Snake(Camel(s)) == s <==> NoUpper(s)
  {
    if Clean(s) { CamelSnake(s); }
    if NoUpper(s) { SnakeCamel(s); }
    CamelIsClean(Snake(s));
    SnakeHasNoUpper(Camel(s));
  }

  /** The two module-level caches. */
  class KeyCaches {
    var snakeToCamel: map<string, string>
    var camelToSnake: map<string, string>

    /** Every cached answer is the answer the rewriter gives. */
    ghost predicate Valid()
      reads this
    {
      && (forall k <- snakeToCamel :: snakeToCamel[k] == Camel(k))
      && (forall k <- camelToSnake :: camelToSnake[k] == Snake(k))
    }

    constructor ()
      ensures Valid()
    {
      snakeToCamel, camelToSnake := map[], map[];
    }

    /** Whatever was asked before, the memoised rewriter returns what the plain one does. */
    method SnakeToCamel(str: string) returns (result: string)
      requires Valid()
      modifies this`snakeToCamel
      ensures Valid()
      ensures result == Camel(str)
      ensures snakeToCamel == old(snakeToCamel)[str := result]
    {
      if str in snakeToCamel {
        result := snakeToCamel[str];
        assert snakeToCamel == snakeToCamel[str := result];
      } else {
        result := Camel(str);
        snakeToCamel := snakeToCamel[str := result];
      }
    }

    method CamelToSnake(str: string) returns (result: string)
      requires Valid()
      modifies this`camelToSnake
      ensures Valid()
      ensures result == Snake(str)
      ensures camelToSnake == old(camelToSnake)[str := result]
    {
      if str in camelToSnake {
        result := camelToSnake[str];
        assert camelToSnake == camelToSnake[str := result];
      } else {
        result := Snake(str);
        camelToSnake := camelToSnake[str := result];
      }
    }
  }
}
