/** ASCII string helpers standing for the functions of Go's `strings` package that the gateway uses. */
module Text {

  datatype Option<+T> = None | Some(value: T)

  datatype Result<+T, +E> = Success(value: T) | Failure(error: E)

  const SPACES: set<char> := {' ', '\t', '\n', '\r', '\U{000B}', '\U{000C}'}
  const DOT: set<char> := {'.'}

  function LowerChar(c: char): char {
    if 'A' <= c <= 'Z' then ((c as int) + 32) as char else c
  }

  /** strings.ToLower on ASCII. */
  function Lower(s: string): (r: string)
    ensures |r| == |s|
  {
    seq(|s|, i requires 0 <= i < |s| => LowerChar(s[i]))
  }

  function TrimLeft(s: string, cut: set<char>): string {
    if s != [] && s[0] in cut then TrimLeft(s[1..], cut) else s
  }

  function TrimRight(s: string, cut: set<char>): string {
    if s != [] && s[|s| - 1] in cut then TrimRight(s[..|s| - 1], cut) else s
  }

  /** strings.Trim: the left end first, then the right end. */
  function Trim(s: string, cut: set<char>): string {
    TrimRight(TrimLeft(s, cut), cut)
  }

  /** Nothing of `cut` at either end. */
  predicate NoEdge(s: string, cut: set<char>) {
    s != [] ==> s[0] !in cut && s[|s| - 1] !in cut
  }

  lemma {:induction false} TrimLeftKeeps(s: string, cut: set<char>)
    ensures var r := TrimLeft(s, cut); |r| <= |s| && r == s[|s| - |r|..] && (r != [] ==> r[0] !in cut)
    ensures TrimLeft(s, cut) == s <==> s == [] || s[0] !in cut
    ensures s != [] && s[|s| - 1] !in cut ==> TrimLeft(s, cut) != []
  {
    if s == [] || s[0] !in cut {
    } else {
      TrimLeftKeeps(s[1..], cut);
    }
  }

  lemma {:induction false} TrimRightKeeps(s: string, cut: set<char>)
    ensures var r := TrimRight(s, cut); |r| <= |s| && r == s[..|r|] && (r != [] ==> r[|r| - 1] !in cut)
    ensures TrimRight(s, cut) == s <==> s == [] || s[|s| - 1] !in cut
    ensures s != [] && s[0] !in cut ==> TrimRight(s, cut) != []
  {
    if s == [] || s[|s| - 1] !in cut {
    } else {
      TrimRightKeeps(s[..|s| - 1], cut);
    }
  }

  /** What Trim leaves: the string itself exactly when there is nothing to cut. */
  lemma TrimKeeps(s: string, cut: set<char>)
    ensures NoEdge(Trim(s, cut), cut)
    ensures |Trim(s, cut)| <= |s| && (|Trim(s, cut)| == |s| ==> Trim(s, cut) == s)
    ensures Trim(s, cut) == s <==> NoEdge(s, cut)
    ensures s != [] && s[0] !in cut ==> Trim(s, cut) != [] && Trim(s, cut)[0] == s[0]
    ensures s != [] && s[|s| - 1] !in cut ==> Trim(s, cut) != [] && Trim(s, cut)[|Trim(s, cut)| - 1] == s[|s| - 1]
  {
    TrimLeftKeeps(s, cut);
    TrimRightKeeps(TrimLeft(s, cut), cut);
  }

  function TrimSpace(s: string): string { Trim(s, SPACES) }

  /** strings.TrimSuffix(s, "."): at most one trailing dot goes. */
  function DropLastDot(s: string): string {
    if s != [] && s[|s| - 1] == '.' then s[..|s| - 1] else s
  }

  /** strings.TrimPrefix(s, "."): at most one leading dot goes. */
  function DropFirstDot(s: string): string {
    if s != [] && s[0] == '.' then s[1..] else s
  }

  predicate HasSuffix(s: string, suffix: string) {
    |suffix| <= |s| && s[|s| - |suffix|..] == suffix
  }

  predicate Contains(s: string, part: string) {
    exists i, j :: 0 <= i <= j <= |s| && s[i..j] == part
  }

  /** strings.EqualFold on ASCII. */
  predicate EqualFold(a: string, b: string) {
    Lower(a) == Lower(b)
  }

  lemma LowerIdempotent(s: string)
    ensures Lower(Lower(s)) == Lower(s)
  {
  }

  /** A separator that neither front part contains splits the string in one way only. */
  lemma SeparatorSplits(sep: char, a: string, x: string, b: string, y: string)
    requires a + [sep] + x == b + [sep] + y && sep !in a && sep !in b
    ensures a == b && x == y
  {
    FrontNotLonger(sep, a, x, b, y);
    FrontNotLonger(sep, b, y, a, x);
    var all := a + [sep] + x;
    assert a == all[..|a|] && b == (b + [sep] + y)[..|b|];
    assert x == all[|a| + 1..] && y == (b + [sep] + y)[|b| + 1..];
  }

  lemma FrontNotLonger(sep: char, a: string, x: string, b: string, y: string)
    requires a + [sep] + x == b + [sep] + y && sep !in a
    ensures |a| <= |b|
  {
    assert (b + [sep] + y)[|b|] == sep;
    assert forall i :: 0 <= i < |a| ==> (a + [sep] + x)[i] == a[i];
  }

  /** strings.ToUpper on ASCII. */
  function Upper(s: string): (r: string)
    ensures |r| == |s|
  {
    seq(|s|, i requires 0 <= i < |s| => if 'a' <= s[i] <= 'z' then ((s[i] as int) - 32) as char else s[i])
  }

  /** strings.Split on one character. */
  function Split(s: string, sep: char): (r: seq<string>)
    ensures r != []
  {
    if s == [] then [""]
    else if s[0] == sep then [""] + Split(s[1..], sep)
    else var rest := Split(s[1..], sep); [[s[0]] + rest[0]] + rest[1..]
  }

  /** The first part ends at the first separator. */
  lemma {:induction false} SplitFirst(a: string, sep: char, x: string)
    requires sep !in a
    ensures Split(a, sep) == [a]
    ensures Split(a + [sep] + x, sep) == [a] + Split(x, sep)
  {
    if a == [] {
      assert (a + [sep] + x)[1..] == x;
    } else {
      SplitFirst(a[1..], sep, x);
      assert (a + [sep] + x)[1..] == a[1..] + [sep] + x;
      assert a == [a[0]] + a[1..];
    }
  }

  function Digit(d: nat): char
    requires d < 10
  {
    (d + 48) as char
  }

  /** strconv.Itoa on what is not negative. */
  function Decimal(n: nat): string {
    if n < 10 then [Digit(n)] else Decimal(n / 10) + [Digit(n % 10)]
  }

  lemma {:induction false} DecimalInjective(a: nat, b: nat)
    requires Decimal(a) == Decimal(b)
    ensures a == b
  {
    if a >= 10 && b >= 10 {
      assert Decimal(a)[..|Decimal(a)| - 1] == Decimal(a / 10) && Decimal(b)[..|Decimal(b)| - 1] == Decimal(b / 10);
      DecimalInjective(a / 10, b / 10);
      assert Digit(a % 10) == Digit(b % 10);
    } else {
      DecimalNonempty(a / 10);
      DecimalNonempty(b / 10);
      assert Decimal(a)[0] == Decimal(b)[0];
    }
  }

  lemma {:induction false} DecimalNonempty(n: nat)
    ensures Decimal(n) != []
  {
  }

  lemma {:induction false} DecimalDigits(n: nat)
    ensures forall c :: c in Decimal(n) ==> '0' <= c <= '9'
  {
    if n < 10 {
    } else {
      DecimalDigits(n / 10);
    }
  }

  // ---------------------------------------------------------------- what the helpers do, in plain terms

  const CAPITALS := "ABCDEFGHIJKLMNOPQRSTUVWXYZ"
  const SMALL := "abcdefghijklmnopqrstuvwxyz"

  /** The same text with its capitals made small. */
  ghost predicate Folded(s: string, t: string) {
    && |t| == |s|
    && (forall i, k :: 0 <= i < |s| && 0 <= k < 26 && s[i] == CAPITALS[k] ==> t[i] == SMALL[k])
    && (forall i :: 0 <= i < |s| && s[i] !in CAPITALS ==> t[i] == s[i])
  }

  /** The same text without the dot at its end, if it had one. */
  ghost predicate Undotted(s: string, t: string) {
    t + "." == s || (t == s && (s == "" || s[|s| - 1] != '.'))
  }

  /** The same text without the dot in front, if it had one. */
  ghost predicate Unfronted(s: string, t: string) {
    "." + t == s || (t == s && (s == "" || s[0] != '.'))
  }

  /** The same text without the spaces at its ends. */
  ghost predicate Unspaced(s: string, t: string) {
    && (exists left, right :: s == left + t + right && forall c :: c in left + right ==> c in WHITE)
    && (t != "" ==> t[0] !in WHITE && t[|t| - 1] !in WHITE)
  }

  /** The 26 capitals become their small letters, one by one, and nothing else changes. */
  lemma LowerMeans(s: string)
    ensures Folded(s, Lower(s))
    ensures Lower(s) == s <==> forall c :: c in s ==> c !in CAPITALS
  {
    Alphabet();
    assert forall i :: 0 <= i < |s| && s[i] in CAPITALS ==> Lower(s)[i] != s[i];
  }

  lemma UpperMeans(s: string)
    ensures |Upper(s)| == |s|
    ensures forall i, k :: 0 <= i < |s| && 0 <= k < 26 && s[i] == SMALL[k] ==> Upper(s)[i] == CAPITALS[k]
    ensures forall i :: 0 <= i < |s| && s[i] !in SMALL ==> Upper(s)[i] == s[i]
  {
    Alphabet();
  }

  lemma Alphabet()
    ensures |CAPITALS| == |SMALL| == 26
    ensures forall k :: 0 <= k < 26 ==> CAPITALS[k] as int == 65 + k && SMALL[k] as int == 97 + k
    ensures forall c :: c in CAPITALS <==> 'A' <= c <= 'Z'
    ensures forall c :: c in SMALL <==> 'a' <= c <= 'z'
  {
    forall c | 'A' <= c <= 'Z' ensures c in CAPITALS {
      assert CAPITALS[c as int - 65] == c;
    }
    forall c | 'a' <= c <= 'z' ensures c in SMALL {
      assert SMALL[c as int - 97] == c;
    }
  }

  const WHITE := " \t\n\r\U{000B}\U{000C}"

  /** What TrimSpace cuts are spaces, and it leaves none at an end. */
  lemma TrimSpaceMeans(s: string)
    ensures Unspaced(s, TrimSpace(s))
  {
    hide TrimLeft, TrimRight;
    SpacesAreWhite();
    TrimKeeps(s, SPACES);
    TrimLeftCuts(s, SPACES);
    TrimRightCuts(TrimLeft(s, SPACES), SPACES);
    var left := s[..|s| - |TrimLeft(s, SPACES)|];
    var right := TrimLeft(s, SPACES)[|TrimSpace(s)|..];
    assert s == left + TrimSpace(s) + right;
  }

  lemma SpacesAreWhite()
    ensures forall c :: c in WHITE <==> c in SPACES
  {
    assert WHITE == [' ', '\t', '\n', '\r', '\U{000B}', '\U{000C}'];
  }

  lemma {:induction false} TrimLeftCuts(s: string, cut: set<char>)
    ensures |TrimLeft(s, cut)| <= |s|
    ensures var n := |s| - |TrimLeft(s, cut)|; s[n..] == TrimLeft(s, cut) && forall c :: c in s[..n] ==> c in cut
  {
    if s == [] || s[0] !in cut {
    } else {
      TrimLeftCuts(s[1..], cut);
    }
  }

  lemma {:induction false} TrimRightCuts(s: string, cut: set<char>)
    ensures |TrimRight(s, cut)| <= |s|
    ensures var n := |TrimRight(s, cut)|; s[..n] == TrimRight(s, cut) && forall c :: c in s[n..] ==> c in cut
  {
    if s == [] || s[|s| - 1] !in cut {
    } else {
      TrimRightCuts(s[..|s| - 1], cut);
    }
  }

  /** One dot goes, at the end that it stands at, and nothing else. */
  lemma DropDotMeans(s: string)
    ensures DropLastDot(s + ".") == s && DropFirstDot("." + s) == s
    ensures Undotted(s, DropLastDot(s))
    ensures Unfronted(s, DropFirstDot(s))
    ensures s != "" && s[|s| - 1] == '.' ==> DropLastDot(s) != s
    ensures s != "" && s[0] == '.' ==> DropFirstDot(s) != s
  {
    assert (s + ".")[..|s|] == s && ("." + s)[1..] == s;
  }

  lemma PartsMean(s: string, part: string)
    ensures HasSuffix(s, part) <==> exists front :: s == front + part
    ensures Contains(s, part) <==> exists front, back :: s == front + part + back
  {
    if HasSuffix(s, part) {
      assert s == s[..|s| - |part|] + part;
    }
    if Contains(s, part) {
      var i, j :| 0 <= i <= j <= |s| && s[i..j] == part;
      assert s == s[..i] + part + s[j..];
    }
    forall front, back | s == front + part + back ensures Contains(s, part) {
      assert s[|front|..|front| + |part|] == part;
    }
  }

  /** Decimal writes the digits of a number, the last one last and no zero in front. */
  lemma DecimalMeans(n: nat, d: nat)
    requires d < 10
    ensures Decimal(d) == ["0123456789"[d]]
    ensures n > 0 ==> Decimal(10 * n + d) == Decimal(n) + ["0123456789"[d]]
  {
    assert "0123456789"[d] as int == 48 + d;
    assert (10 * n + d) / 10 == n && (10 * n + d) % 10 == d;
  }
}
