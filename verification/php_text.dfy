/**
 The PHP string built-ins the services rely on: `trim`, `strtolower`,
 `strpos(..) !== false`, `explode` and `implode`, over `string` = `seq<char>`.
 */
module PhpText {

  predicate IsDigit(c: char) {
    '0' <= c <= '9'
  }

  predicate AllDigits(s: string) {
    forall i :: 0 <= i < |s| ==> IsDigit(s[i])
  }

  /** The characters `trim($s)` removes when no character list is given. */
  predicate IsTrimSpace(c: char) {
    c == ' ' || c == '\t' || c == '\n' || c == '\r' || c == '\0' || c == '\U{B}'
  }

  predicate IsQuote(c: char) {
    c == '"'
  }

  predicate StartsWith(s: string, prefix: string) {
    |prefix| <= |s| && s[..|prefix|] == prefix
  }

  /** Removes the longest prefix whose characters all satisfy `drop`. */
  function TrimStart(s: string, drop: char -> bool): (r: string)
    ensures |r| <= |s| && r == s[|s| - |r|..]
    ensures forall i :: 0 <= i < |s| - |r| ==> drop(s[i])
    ensures |r| > 0 ==> !drop(r[0])
  {
    if |s| > 0 && drop(s[0]) then
      var r := TrimStart(s[1..], drop);
      DroppedOneMoreFront(s, s[1..], r, drop);
      r
    else s
  }

  /** A dropped first character extends the dropped prefix of the rest by one. */
  lemma DroppedOneMoreFront(s: string, t: string, r: string, drop: char -> bool)
    requires |s| > 0 && drop(s[0]) && t == s[1..]
    requires |r| <= |t| && r == t[|t| - |r|..]
    requires forall i :: 0 <= i < |t| - |r| ==> drop(t[i])
    ensures r == s[|s| - |r|..]
    ensures forall i :: 0 <= i < |s| - |r| ==> drop(s[i])
  {
    forall i | 1 <= i < |s| - |r|
      ensures drop(s[i])
    {
      assert s[i] == t[i - 1];
    }
  }

  /** Removes the longest suffix whose characters all satisfy `drop`. */
  function TrimEnd(s: string, drop: char -> bool): (r: string)
    ensures |r| <= |s| && r == s[..|r|]
    ensures forall i :: |r| <= i < |s| ==> drop(s[i])
    ensures |r| > 0 ==> !drop(r[|r| - 1])
  {
    if |s| > 0 && drop(s[|s| - 1]) then
      var r := TrimEnd(s[..|s| - 1], drop);
      DroppedOneMoreBack(s, s[..|s| - 1], r, drop);
      r
    else s
  }

  /** A dropped last character extends the dropped suffix of the rest by one. */
  lemma DroppedOneMoreBack(s: string, t: string, r: string, drop: char -> bool)
    requires |s| > 0 && drop(s[|s| - 1]) && t == s[..|s| - 1]
    requires |r| <= |t| && r == t[..|r|]
    requires forall i :: |r| <= i < |t| ==> drop(t[i])
    ensures r == s[..|r|]
    ensures forall i :: |r| <= i < |s| ==> drop(s[i])
  {
    forall i | |r| <= i < |s| - 1
      ensures drop(s[i])
    {
      assert s[i] == t[i];
    }
  }

  /** `trim($s, $chars)`: strips `drop` characters from both ends. */
  function Trim(s: string, drop: char -> bool): string {
    TrimEnd(TrimStart(s, drop), drop)
  }

  /** What `Trim` leaves is the infix of `s` between the two maximal runs of dropped characters. */
  lemma TrimInfix(s: string, drop: char -> bool)
    ensures var r, k := Trim(s, drop), |s| - |TrimStart(s, drop)|;
      && k + |r| <= |s|
      && r == s[k..k + |r|]
      && (forall i :: 0 <= i < k ==> drop(s[i]))
      && (forall i :: k + |r| <= i < |s| ==> drop(s[i]))
  {
    var t := TrimStart(s, drop);
    TrimEndOfSuffix(s, |s| - |t|, drop);
  }

  /** What `Trim` leaves neither starts nor ends with a dropped character. */
  lemma TrimKeepsEnds(s: string, drop: char -> bool)
    ensures var r := Trim(s, drop);
      |r| > 0 ==> !drop(r[0]) && !drop(r[|r| - 1])
  {
    TrimEndKeepsEnds(TrimStart(s, drop), drop);
  }

  lemma TrimEndOfSuffix(s: string, k: nat, drop: char -> bool)
    requires k <= |s|
    ensures var r := TrimEnd(s[k..], drop);
      && k + |r| <= |s|
      && r == s[k..k + |r|]
      && (forall i :: k + |r| <= i < |s| ==> drop(s[i]))
  {
    var t := s[k..];
    var r := TrimEnd(t, drop);
    assert r == t[..|r|];
    forall i | k + |r| <= i < |s| ensures drop(s[i]) {
      assert s[i] == t[i - k];
    }
  }

  lemma TrimEndKeepsEnds(t: string, drop: char -> bool)
    requires |t| == 0 || !drop(t[0])
    ensures var r := TrimEnd(t, drop);
      |r| > 0 ==> !drop(r[0]) && !drop(r[|r| - 1])
  {
    var r := TrimEnd(t, drop);
    if |r| > 0 {
      assert r[0] == t[0];
    }
  }

  lemma TrimEndKeepsFirst(s: string, drop: char -> bool)
    requires |s| > 0 && !drop(s[0])
    ensures |TrimEnd(s, drop)| > 0 && TrimEnd(s, drop)[0] == s[0]
  {
  }

  /** `trim($value, '"')`. */
  function QuoteTrim(s: string): string {
    Trim(s, IsQuote)
  }

  /** `trim($piece)` with PHP's default character list. */
  function SpaceTrim(s: string): string {
    Trim(s, IsTrimSpace)
  }

  lemma TrimStartNoop(s: string, drop: char -> bool)
    requires |s| == 0 || !drop(s[0])
    ensures TrimStart(s, drop) == s
  {
  }

  lemma TrimEndNoop(s: string, drop: char -> bool)
    requires |s| == 0 || !drop(s[|s| - 1])
    ensures TrimEnd(s, drop) == s
  {
  }

  /** A string that neither starts nor ends with a dropped character is left alone. */
  lemma TrimNoop(s: string, drop: char -> bool)
    requires |s| == 0 || (!drop(s[0]) && !drop(s[|s| - 1]))
    ensures Trim(s, drop) == s
  {
    TrimStartNoop(s, drop);
    TrimEndNoop(s, drop);
  }

  /** Trimming is idempotent. */
  lemma TrimIdempotent(s: string, drop: char -> bool)
    ensures Trim(Trim(s, drop), drop) == Trim(s, drop)
  {
    TrimNoop(Trim(s, drop), drop);
  }

  lemma TrimStartPadded(d: char, s: string, drop: char -> bool)
    requires drop(d)
    ensures TrimStart([d] + s, drop) == TrimStart(s, drop)
  {
    assert ([d] + s)[1..] == s;
  }

  lemma TrimEndPadded(s: string, d: char, drop: char -> bool)
    requires drop(d)
    ensures TrimEnd(s + [d], drop) == TrimEnd(s, drop)
  {
    assert (s + [d])[..|s|] == s;
  }

  /** Wrapping a value in one more pair of quotes does not change `trim($value, '"')`. */
  lemma QuoteTrimWrapped(s: string)
    ensures QuoteTrim("\"" + s + "\"") == QuoteTrim(s)
  {
    var w := "\"" + s + "\"";
    assert w == ['"'] + (s + "\"");
    TrimStartPadded('"', s + "\"", IsQuote);
    var t := TrimStart(s + "\"", IsQuote);
    var u := TrimStart(s, IsQuote);
    assert TrimStart(w, IsQuote) == t;
    TrimStartKeepsSuffix(s, "\"", IsQuote);
    if u != [] {
      assert t == u + "\"";
      TrimEndPadded(u, '"', IsQuote);
    } else {
      assert TrimEnd(t, IsQuote) == [];
    }
  }

  /**
   Trimming the start of `s + tail` either stops inside `s` or consumes all of
   `s` and continues into `tail`.
   */
  lemma {:induction false} TrimStartKeepsSuffix(s: string, tail: string, drop: char -> bool)
    requires forall i :: 0 <= i < |tail| ==> drop(tail[i])
    ensures TrimStart(s + tail, drop) == TrimStart(s, drop) + tail
         || (TrimStart(s, drop) == [] && TrimStart(s + tail, drop) == [])
    decreases |s|
  {
    if |s| == 0 {
      assert s + tail == tail;
      AllDroppedTrimStart(tail, drop);
    } else if drop(s[0]) {
      assert (s + tail)[1..] == s[1..] + tail;
      TrimStartKeepsSuffix(s[1..], tail, drop);
    } else {
      assert (s + tail)[0] == s[0];
    }
  }

  lemma {:induction false} AllDroppedTrimStart(s: string, drop: char -> bool)
    requires forall i :: 0 <= i < |s| ==> drop(s[i])
    ensures TrimStart(s, drop) == []
    decreases |s|
  {
    if |s| > 0 {
      AllDroppedTrimStart(s[1..], drop);
    }
  }

  /** `strtolower`: since PHP 8.2 it maps ASCII letters only. */
  function LowerChar(c: char): (r: char)
    ensures 'A' <= c <= 'Z' ==> 'a' <= r <= 'z' && r as int - c as int == 32
    ensures !('A' <= c <= 'Z') ==> r == c
  {
    if 'A' <= c <= 'Z' then (c as int + 32) as char else c
  }

  function ToLower(s: string): (r: string)
    ensures |r| == |s|
    ensures forall i :: 0 <= i < |s| ==> r[i] == LowerChar(s[i])
  {
    seq(|s|, i requires 0 <= i < |s| => LowerChar(s[i]))
  }

  /**
   `strtolower($unit) === 'days'` holds exactly for the sixteen spellings of
   "days" in mixed case.
   */
  lemma LowerIsDaysIff(u: string)
    ensures ToLower(u) == "days" <==>
      |u| == 4 && u[0] in "dD" && u[1] in "aA" && u[2] in "yY" && u[3] in "sS"
  {
    if ToLower(u) == "days" {
      assert |u| == 4;
      assert LowerChar(u[0]) == 'd' && LowerChar(u[1]) == 'a';
      assert LowerChar(u[2]) == 'y' && LowerChar(u[3]) == 's';
    }
    if |u| == 4 && u[0] in "dD" && u[1] in "aA" && u[2] in "yY" && u[3] in "sS" {
      assert ToLower(u) == "days";
    }
  }

  /** `strpos($s, $c)` when the character occurs: its first position. */
  function IndexOf(s: string, c: char): (r: nat)
    requires c in s
    ensures r < |s| && s[r] == c && c !in s[..r]
  {
    if s[0] == c then 0
    else
      assert c in s[1..];
      var k := IndexOf(s[1..], c);
      assert s[..k + 1] == [s[0]] + s[1..][..k];
      k + 1
  }

  /** The last position of a character that occurs. */
  function LastIndexOf(s: string, c: char): (r: nat)
    requires c in s
    ensures r < |s| && s[r] == c && c !in s[r + 1..]
  {
    if s[|s| - 1] == c then |s| - 1
    else
      assert c in s[..|s| - 1] by {
        var j :| 0 <= j < |s| && s[j] == c;
        assert s[..|s| - 1][j] == c;
      }
      var k := LastIndexOf(s[..|s| - 1], c);
      assert s[k + 1..] == s[..|s| - 1][k + 1..] + [s[|s| - 1]];
      k
  }

  /** `explode($c, $s)`: the pieces between occurrences of `c`. */
  function Split(s: string, c: char): (r: seq<string>)
    ensures |r| >= 1
    ensures |r| == 1 <==> c !in s
    ensures forall i :: 0 <= i < |r| ==> c !in r[i]
    decreases |s|
  {
    if c !in s then [s]
    else
      var k := IndexOf(s, c);
      [s[..k]] + Split(s[k + 1..], c)
  }

  /** `implode($sep, $xs)`. */
  function Join(xs: seq<string>, sep: string): string {
    if |xs| == 0 then ""
    else if |xs| == 1 then xs[0]
    else xs[0] + sep + Join(xs[1..], sep)
  }

  /** Joining the pieces of `explode` with the same character restores the string. */
  lemma {:induction false} JoinSplit(s: string, c: char)
    ensures Join(Split(s, c), [c]) == s
    decreases |s|
  {
    if c in s {
      var k := IndexOf(s, c);
      var x, tail := s[..k], s[k + 1..];
      var pieces := Split(tail, c);
      JoinSplit(tail, c);
      SplitCons(s, c);
      assert Join(Split(s, c), [c]) == Join([x] + pieces, [c]);
      JoinCons(x, pieces, [c]);
      assert Join([x] + pieces, [c]) == x + [c] + tail;
      CutAt(s, k);
    }
  }

  lemma CutAt(s: string, k: nat)
    requires k < |s|
    ensures s == s[..k] + [s[k]] + s[k + 1..]
  {
  }

  lemma SplitCons(s: string, c: char)
    requires c in s
    ensures var k := IndexOf(s, c);
      Split(s, c) == [s[..k]] + Split(s[k + 1..], c)
  {
  }

  lemma JoinCons(x: string, rest: seq<string>, sep: string)
    requires |rest| >= 1
    ensures Join([x] + rest, sep) == x + sep + Join(rest, sep)
  {
    assert ([x] + rest)[1..] == rest;
  }

  lemma IndexOfAfter(a: string, c: char, b: string)
    requires c !in a
    ensures c in a + [c] + b && IndexOf(a + [c] + b, c) == |a|
  {
    var s := a + [c] + b;
    assert s[|a|] == c;
    var k := IndexOf(s, c);
    assert s[..|a|] == a;
  }

  /** `explode` undoes `implode` when no piece contains the separator. */
  lemma {:induction false} SplitJoin(xs: seq<string>, c: char)
    requires |xs| >= 1
    requires forall i :: 0 <= i < |xs| ==> c !in xs[i]
    ensures Split(Join(xs, [c]), c) == xs
    decreases |xs|
  {
    if |xs| > 1 {
      var tail := Join(xs[1..], [c]);
      SplitJoin(xs[1..], c);
      var s := xs[0] + [c] + tail;
      assert Join(xs, [c]) == s;
      SplitAfter(xs[0], c, tail);
      assert xs == [xs[0]] + xs[1..];
    }
  }

  /** `explode` cuts at the first occurrence. */
  lemma SplitAfter(a: string, c: char, b: string)
    requires c !in a
    ensures Split(a + [c] + b, c) == [a] + Split(b, c)
  {
    var s := a + [c] + b;
    IndexOfAfter(a, c, b);
    assert s[..|a|] == a;
    assert s[|a| + 1..] == b;
  }

  lemma SplitPair(a: string, c: char, b: string)
    requires c !in a && c !in b
    ensures Split(a + [c] + b, c) == [a, b]
  {
    SplitAfter(a, c, b);
    assert Split(b, c) == [b];
  }
}
