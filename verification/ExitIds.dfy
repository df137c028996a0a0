/** The identifier of an exit in generated files: ASCII letters, digits and underscores, stable under renaming twice. */
module ExitIds {
  import opened Text
  import opened Bytes

  type Digest = d: seq<byte> | |d| == 32 witness seq(32, _ => 0)

  /** SHA-256 is the crypto package's business and enters as a parameter. */
  type Sha256 = string -> Digest

  const UNDERSCORE: set<char> := {'_'}
  const HEX := "0123456789abcdef"
  const SLUG_LIMIT := 48

  predicate Alphanumeric(c: char) {
    'A' <= c <= 'Z' || 'a' <= c <= 'z' || '0' <= c <= '9'
  }

  predicate SafeChar(c: char) { Alphanumeric(c) || c == '_' }

  predicate AllSafe(s: string) { forall i :: 0 <= i < |s| ==> SafeChar(s[i]) }

  /** exitIDSafePattern. */
  predicate Safe(name: string) { name != "" && AllSafe(name) }

  /** exitIDLegacyPattern. */
  predicate Legacy(name: string) {
    name != "" && forall i :: 0 <= i < |name| ==> SafeChar(name[i]) || name[i] == '.' || name[i] == '-'
  }

  /** exitIDUnsafePattern.ReplaceAllString(s, "_"): one underscore for every run of unsafe characters. */
  function ReplaceUnsafe(s: string): string {
    if s == "" then ""
    else if SafeChar(s[0]) then [s[0]] + ReplaceUnsafe(s[1..])
    else if |s| > 1 && !SafeChar(s[1]) then ReplaceUnsafe(s[1..])
    else "_" + ReplaceUnsafe(s[1..])
  }

  function Slug(name: string): string {
    var slug := Trim(ReplaceUnsafe(name), UNDERSCORE);
    if slug == "" then "exit" else slug
  }

  /** hex.EncodeToString. */
  function Hex(bytes: seq<byte>): (r: string)
    ensures |r| == 2 * |bytes|
  {
    if bytes == [] then ""
    else [HEX[bytes[0] as int / 16], HEX[bytes[0] as int % 16]] + Hex(bytes[1..])
  }

  function ExitID(sha: Sha256, name: string): string {
    if Safe(name) then name
    else if Legacy(name) then Slug(name)
    else Cut(Slug(name)) + "_" + Hex(sha(name)[..8])
  }

  function Cut(slug: string): string {
    if |slug| > SLUG_LIMIT then slug[..SLUG_LIMIT] else slug
  }

  /** The letters and digits of a string, in order. */
  function Letters(s: string): string {
    if s == "" then "" else (if Alphanumeric(s[0]) then [s[0]] else "") + Letters(s[1..])
  }

  lemma NothingSpelled()
    ensures Letters("") == ""
  {
  }

  /** What one character adds. */
  function Letter(c: char): string {
    if Alphanumeric(c) then [c] else ""
  }

  lemma LettersFirst(s: string, c: char)
    ensures Letters([c] + s) == Letter(c) + Letters(s)
  {
    assert ([c] + s)[1..] == s;
  }

  lemma {:induction false} LettersConcat(a: string, b: string)
    ensures Letters(a + b) == Letters(a) + Letters(b)
  {
    hide Letter, Letters;
    if a == "" {
      assert a + b == b;
      NothingSpelled();
    } else {
      var c, rest := a[0], a[1..];
      LettersConcat(rest, b);
      LettersFirst(rest, c);
      LettersFirst(rest + b, c);
      assert a == [c] + rest;
      assert a + b == [c] + (rest + b);
      assert Letter(c) + (Letters(rest) + Letters(b)) == Letter(c) + Letters(rest) + Letters(b);
    }
  }

  lemma {:induction false} ReplaceKeeps(s: string)
    ensures AllSafe(ReplaceUnsafe(s)) && Letters(ReplaceUnsafe(s)) == Letters(s)
  {
    if s == "" {
    } else {
      ReplaceKeeps(s[1..]);
      var r := ReplaceUnsafe(s);
      assert r == ReplaceUnsafe(s[1..]) || r[1..] == ReplaceUnsafe(s[1..]);
    }
  }

  lemma {:induction false} TrimLeftKeepsLetters(s: string)
    ensures Letters(TrimLeft(s, UNDERSCORE)) == Letters(s)
  {
    if s == "" || s[0] !in UNDERSCORE {
    } else {
      TrimLeftKeepsLetters(s[1..]);
    }
  }

  lemma {:induction false} TrimRightKeepsLetters(s: string)
    ensures Letters(TrimRight(s, UNDERSCORE)) == Letters(s)
  {
    if s == "" || s[|s| - 1] !in UNDERSCORE {
    } else {
      TrimRightKeepsLetters(s[..|s| - 1]);
      LettersConcat(s[..|s| - 1], "_");
      assert s == s[..|s| - 1] + "_";
      assert Letters("_") == "";
    }
  }

  /** Trimming underscores leaves a piece of the string, safe if the string is, with the same letters. */
  lemma TrimmedIsSafe(s: string)
    requires AllSafe(s)
    ensures AllSafe(Trim(s, UNDERSCORE)) && NoEdge(Trim(s, UNDERSCORE), UNDERSCORE)
    ensures Letters(Trim(s, UNDERSCORE)) == Letters(s)
  {
    hide TrimLeft, TrimRight, Letters;
    var left := TrimLeft(s, UNDERSCORE);
    TrimLeftKeeps(s, UNDERSCORE);
    PieceIsSafe(s, |s| - |left|, |s|);
    TrimLeftKeepsLetters(s);
    var both := TrimRight(left, UNDERSCORE);
    TrimRightKeeps(left, UNDERSCORE);
    PieceIsSafe(left, 0, |both|);
    TrimRightKeepsLetters(left);
    TrimKeeps(s, UNDERSCORE);
  }

  lemma PieceIsSafe(s: string, from: nat, to: nat)
    requires AllSafe(s) && from <= to <= |s|
    ensures AllSafe(s[from..to])
  {
  }

  /** A string that starts with a letter or digit spells something. */
  lemma StartsSpelled(s: string)
    requires s != "" && Alphanumeric(s[0])
    ensures Letters(s) != ""
  {
  }

  /** A slug spells the letters and digits of the name, in order, and never starts or ends with an underscore. */
  lemma SlugMeaning(name: string)
    ensures Safe(Slug(name)) && NoEdge(Slug(name), UNDERSCORE)
    ensures Letters(Slug(name)) == if Letters(name) == "" then "exit" else Letters(name)
  {
    hide ReplaceUnsafe, Trim, Letters;
    ReplaceKeeps(name);
    TrimmedIsSafe(ReplaceUnsafe(name));
    var t := Trim(ReplaceUnsafe(name), UNDERSCORE);
    if t == "" {
      ExitLetters();
    } else {
      StartsSpelled(t);
    }
  }

  lemma ExitLetters()
    ensures Letters("exit") == "exit" && Letters("") == ""
  {
    assert Letters("it") == "it" by {
      assert "it"[1..] == "t" && "t"[1..] == "";
    }
    assert "exit"[1..] == "xit" && "xit"[1..] == "it";
  }

  lemma {:induction false} HexSafe(bytes: seq<byte>)
    ensures AllSafe(Hex(bytes))
  {
    if bytes == [] {
    } else {
      HexSafe(bytes[1..]);
      var hi, lo := bytes[0] as int / 16, bytes[0] as int % 16;
      HexDigits(hi);
      HexDigits(lo);
      assert Hex(bytes)[2..] == Hex(bytes[1..]);
    }
  }

  lemma HexDigits(d: nat)
    requires d < 16
    ensures SafeChar(HEX[d]) && (HEX[d] as int == if d < 10 then d + 48 else d + 87)
  {
  }

  lemma {:induction false} HexInjective(a: seq<byte>, b: seq<byte>)
    requires Hex(a) == Hex(b)
    ensures a == b
  {
    assert |a| == |b|;
    if a == [] {
    } else {
      assert Hex(a)[0] == Hex(b)[0] && Hex(a)[1] == Hex(b)[1];
      HexDigits(a[0] as int / 16);
      HexDigits(a[0] as int % 16);
      HexDigits(b[0] as int / 16);
      HexDigits(b[0] as int % 16);
      assert a[0] == b[0];
      assert Hex(a)[2..] == Hex(a[1..]) && Hex(b)[2..] == Hex(b[1..]);
      HexInjective(a[1..], b[1..]);
    }
  }

  /** Whatever the name, its identifier is safe, taking it again changes nothing, and it never grows past a bound. */
  lemma IdIsSafe(sha: Sha256, name: string)
    ensures Safe(ExitID(sha, name)) && ExitID(sha, ExitID(sha, name)) == ExitID(sha, name)
    ensures |ExitID(sha, name)| <= |name| || |ExitID(sha, name)| <= SLUG_LIMIT + 17
  {
    hide Slug, Hex;
    SlugMeaning(name);
    HexSafe(sha(name)[..8]);
    SlugShort(name);
    SafeIsItself(sha, ExitID(sha, name));
  }

  lemma SafeIsItself(sha: Sha256, name: string)
    ensures Safe(name) ==> ExitID(sha, name) == name
  {
    hide Safe, Slug, Hex;
  }

  lemma SlugShort(name: string)
    ensures |Slug(name)| <= |name| || |Slug(name)| <= 4
  {
    ReplaceShort(name);
    TrimKeeps(ReplaceUnsafe(name), UNDERSCORE);
  }

  lemma {:induction false} ReplaceShort(s: string)
    ensures |ReplaceUnsafe(s)| <= |s|
  {
    if s == "" {
    } else {
      ReplaceShort(s[1..]);
    }
  }

  // ---------------------------------------------------------------- which names share an identifier

  /** What stands for a name inside the old alphabet: the name itself if it is safe, else its slug. */
  function Stem(name: string): string {
    if Safe(name) then name else Slug(name)
  }

  /** The words of a string, some empty: every underscore separates two, and so does every run of unsafe characters. */
  function Words(s: string): (r: seq<string>)
    ensures r != []
  {
    if s == "" then [""]
    else if Alphanumeric(s[0]) then var rest := Words(s[1..]); [[s[0]] + rest[0]] + rest[1..]
    else if s[0] == '_' then [""] + Words(s[1..])
    else if |s| > 1 && !SafeChar(s[1]) then Words(s[1..])
    else [""] + Words(s[1..])
  }

  function DropEmptyFront(words: seq<string>): seq<string> {
    if words != [] && words[0] == "" then DropEmptyFront(words[1..]) else words
  }

  function DropEmptyBack(words: seq<string>): seq<string> {
    if words != [] && words[|words| - 1] == "" then DropEmptyBack(words[..|words| - 1]) else words
  }

  /** What a name spells: all its words if it is safe, else without the empty ones at its ends, or "exit" for none. */
  function Spelling(name: string): seq<string> {
    if Safe(name) then Words(name)
    else
      var words := DropEmptyBack(DropEmptyFront(Words(name)));
      if words == [] then ["exit"] else words
  }

  function Joined(words: seq<string>): string {
    if words == [] then "" else if |words| == 1 then words[0] else words[0] + ['_'] + Joined(words[1..])
  }

  predicate Wordlike(words: seq<string>) {
    forall w :: w in words ==> forall i :: 0 <= i < |w| ==> Alphanumeric(w[i])
  }

  lemma {:induction false} WordsAreWordlike(s: string)
    ensures Wordlike(Words(s))
  {
    if s == "" {
    } else {
      WordsAreWordlike(s[1..]);
      var rest, words := Words(s[1..]), Words(s);
      assert rest[0] in rest && forall w :: w in rest[1..] ==> w in rest;
      forall w | w in words ensures forall i :: 0 <= i < |w| ==> Alphanumeric(w[i]) {
        if Alphanumeric(s[0]) && w == [s[0]] + rest[0] {
        } else if w != "" {
          assert w in rest;
        }
      }
    }
  }

  lemma JoinedFirst(w: string, rest: seq<string>)
    requires rest != []
    ensures Joined([w] + rest) == w + ['_'] + Joined(rest)
  {
    assert ([w] + rest)[1..] == rest;
  }

  lemma JoinedGrows(c: char, words: seq<string>)
    requires words != []
    ensures Joined([[c] + words[0]] + words[1..]) == [c] + Joined(words)
  {
    var grown := [[c] + words[0]] + words[1..];
    if |words| > 1 {
      assert grown[1..] == words[1..];
      assert ([c] + words[0]) + ['_'] + Joined(words[1..]) == [c] + (words[0] + ['_'] + Joined(words[1..]));
    }
  }

  /** Replacing and splitting see the same words. */
  lemma {:induction false} ReplaceJoins(s: string)
    ensures ReplaceUnsafe(s) == Joined(Words(s))
  {
    hide Joined;
    if s == "" {
      NoWords();
    } else {
      ReplaceJoins(s[1..]);
      if Alphanumeric(s[0]) {
        JoinedGrows(s[0], Words(s[1..]));
      } else {
        JoinedFirst("", Words(s[1..]));
      }
    }
  }

  lemma NoWords()
    ensures Joined([""]) == "" && Joined([]) == ""
  {
  }

  lemma {:induction false} JoinedInjective(a: seq<string>, b: seq<string>)
    requires a != [] && b != [] && Wordlike(a) && Wordlike(b) && Joined(a) == Joined(b)
    ensures a == b
  {
    NoUnderscore(a[0], a);
    NoUnderscore(b[0], b);
    if |a| == 1 || |b| == 1 {
      OneWord(a, b);
    } else {
      SeparatorSplits('_', a[0], Joined(a[1..]), b[0], Joined(b[1..]));
      JoinedInjective(a[1..], b[1..]);
      assert a == [a[0]] + a[1..] && b == [b[0]] + b[1..];
    }
  }

  lemma NoUnderscore(w: string, words: seq<string>)
    requires w in words && Wordlike(words)
    ensures '_' !in w
  {
  }

  lemma UnderscoreIff(words: seq<string>)
    requires words != [] && Wordlike(words)
    ensures '_' in Joined(words) <==> |words| > 1
  {
    NoUnderscore(words[0], words);
    if |words| > 1 {
      assert Joined(words)[|words[0]|] == '_';
    }
  }

  lemma OneWord(a: seq<string>, b: seq<string>)
    requires a != [] && b != [] && Wordlike(a) && Wordlike(b) && Joined(a) == Joined(b) && (|a| == 1 || |b| == 1)
    ensures a == b
  {
    UnderscoreIff(a);
    UnderscoreIff(b);
  }

  lemma {:induction false} TrimFrontJoins(words: seq<string>)
    requires Wordlike(words)
    ensures TrimLeft(Joined(words), UNDERSCORE) == Joined(DropEmptyFront(words)) && Wordlike(DropEmptyFront(words))
  {
    if words == [] || words[0] != "" {
      assert words != [] ==> Joined(words)[0] == words[0][0];
    } else if |words| == 1 {
      NoWords();
    } else {
      TrimFrontJoins(words[1..]);
      assert Joined(words)[1..] == Joined(words[1..]);
    }
  }

  lemma {:induction false} JoinedLast(words: seq<string>, w: string)
    requires words != []
    ensures Joined(words + [w]) == Joined(words) + ['_'] + w
  {
    if |words| == 1 {
      assert (words + [w])[1..] == [w];
    } else {
      JoinedLast(words[1..], w);
      assert (words + [w])[1..] == words[1..] + [w];
    }
  }

  /** The last word is at the end, behind an underscore unless it is the only one. */
  lemma BackJoined(words: seq<string>)
    requires words != []
    ensures var front, last := words[..|words| - 1], words[|words| - 1];
            Joined(words) == if front == [] then last else Joined(front) + ['_'] + last
  {
    hide Joined;
    var front, last := words[..|words| - 1], words[|words| - 1];
    assert words == front + [last];
    if front == [] {
      SingleWord(last);
    } else {
      JoinedLast(front, last);
    }
  }

  lemma SingleWord(w: string)
    ensures Joined([w]) == w
  {
  }

  lemma {:induction false} TrimBackJoins(words: seq<string>)
    requires Wordlike(words)
    ensures TrimRight(Joined(words), UNDERSCORE) == Joined(DropEmptyBack(words)) && Wordlike(DropEmptyBack(words))
  {
    hide Joined;
    NoWords();
    if words != [] {
      BackJoined(words);
      var front, last := words[..|words| - 1], words[|words| - 1];
      if last == "" {
        TrimBackJoins(front);
        assert front != [] ==> Joined(words)[..|Joined(words)| - 1] == Joined(front);
      } else {
        assert last in words && Joined(words)[|Joined(words)| - 1] == last[|last| - 1];
      }
    }
  }

  lemma {:induction false} NotEmptyBack(words: seq<string>)
    ensures DropEmptyBack(words) != [] ==> DropEmptyBack(words)[|DropEmptyBack(words)| - 1] != ""
  {
    if words == [] || words[|words| - 1] != "" {
    } else {
      NotEmptyBack(words[..|words| - 1]);
    }
  }

  lemma {:induction false} NonemptyJoins(words: seq<string>)
    requires words != [] && words[|words| - 1] != ""
    ensures Joined(words) != ""
  {
    if |words| > 1 {
      NonemptyJoins(words[1..]);
    }
  }

  /** The stem of a name is its spelling, joined; so two stems are equal exactly when the names spell the same. */
  lemma StemSpells(name: string)
    ensures Stem(name) == Joined(Spelling(name)) && Spelling(name) != [] && Wordlike(Spelling(name))
  {
    hide Joined, Words, TrimLeft, TrimRight, DropEmptyFront, DropEmptyBack, Wordlike;
    ReplaceJoins(name);
    WordsAreWordlike(name);
    if Safe(name) {
      SafeStays(name);
    } else {
      var front := DropEmptyFront(Words(name));
      TrimFrontJoins(Words(name));
      TrimBackJoins(front);
      NotEmptyBack(front);
      NoWords();
      if DropEmptyBack(front) == [] {
        OneWordJoins("exit");
      } else {
        NonemptyJoins(DropEmptyBack(front));
      }
    }
  }

  lemma OneWordJoins(w: string)
    requires forall i :: 0 <= i < |w| ==> Alphanumeric(w[i])
    ensures Joined([w]) == w && Wordlike([w])
  {
  }

  lemma {:induction false} SafeStays(s: string)
    requires AllSafe(s)
    ensures ReplaceUnsafe(s) == s
  {
    if s == "" {
    } else {
      SafeStays(s[1..]);
    }
  }

  lemma SameStemIff(a: string, b: string)
    ensures Stem(a) == Stem(b) <==> Spelling(a) == Spelling(b)
  {
    hide Stem, Spelling, Joined, Wordlike;
    StemSpells(a);
    StemSpells(b);
    if Stem(a) == Stem(b) {
      JoinedInjective(Spelling(a), Spelling(b));
    }
  }

  /** The stem ends in an underscore and the digest of the complex name, behind that name's slug. */
  predicate SpellsDigest(sha: Sha256, stem: string, complex: string) {
    && |stem| >= 17 && stem[..|stem| - 17] == Cut(Slug(complex)) && stem[|stem| - 17] == '_'
    && stem[|stem| - 16..] == Hex(sha(complex)[..8])
  }

  /** Two safe names never share an identifier; the other pairs do by what they spell, by digest, or by both. */
  predicate Clash(sha: Sha256, a: string, b: string) {
    if Safe(a) && Safe(b) then a == b
    else if Legacy(a) && Legacy(b) then Spelling(a) == Spelling(b)
    else if Legacy(a) then SpellsDigest(sha, Stem(a), b)
    else if Legacy(b) then SpellsDigest(sha, Stem(b), a)
    else Cut(Slug(a)) == Cut(Slug(b)) && sha(a)[..8] == sha(b)[..8]
  }

  /** For all names: they share an identifier if and only if they clash. */
  lemma SameIdIff(sha: Sha256, a: string, b: string)
    ensures ExitID(sha, a) == ExitID(sha, b) <==> Clash(sha, a, b)
  {
    hide Slug, Cut, Hex, Spelling;
    if Legacy(a) && Legacy(b) {
      SameStemIff(a, b);
    } else if Legacy(a) && !Legacy(b) {
      AgainstDigest(sha, Stem(a), b);
    } else if Legacy(b) && !Legacy(a) {
      AgainstDigest(sha, Stem(b), a);
    } else if !Legacy(a) && !Legacy(b) {
      TwoDigests(sha, a, b);
    }
  }

  lemma AgainstDigest(sha: Sha256, stem: string, complex: string)
    requires !Legacy(complex)
    ensures stem == ExitID(sha, complex) <==> SpellsDigest(sha, stem, complex)
  {
    hide Slug, Cut, Hex;
    var slug, hex := Cut(Slug(complex)), Hex(sha(complex)[..8]);
    assert ExitID(sha, complex) == slug + "_" + hex;
    if SpellsDigest(sha, stem, complex) {
      assert stem == stem[..|stem| - 17] + [stem[|stem| - 17]] + stem[|stem| - 16..];
    }
  }

  lemma TwoDigests(sha: Sha256, a: string, b: string)
    requires !Legacy(a) && !Legacy(b)
    ensures ExitID(sha, a) == ExitID(sha, b) <==> Cut(Slug(a)) == Cut(Slug(b)) && sha(a)[..8] == sha(b)[..8]
  {
    hide Slug, Cut, Hex;
    var x, y := ExitID(sha, a), ExitID(sha, b);
    assert x[|x| - 16..] == Hex(sha(a)[..8]) && x[..|x| - 17] == Cut(Slug(a));
    assert y[|y| - 16..] == Hex(sha(b)[..8]) && y[..|y| - 17] == Cut(Slug(b));
    if x == y {
      HexInjective(sha(a)[..8], sha(b)[..8]);
    }
  }

  /** The signs that stay, and those that the old identifiers knew besides. */
  lemma SignsMean(c: char)
    ensures Alphanumeric(c) <==> c in CAPITALS || c in SMALL || c in "0123456789"
    ensures SafeChar(c) <==> Alphanumeric(c) || c == '_'
    ensures Legacy([c]) <==> SafeChar(c) || c == '.' || c == '-'
  {
    Alphabet();
    DigitsAre();
    assert [c][0] == c;
  }

  lemma DigitsAre()
    ensures forall c :: c in "0123456789" <==> '0' <= c <= '9'
  {
    forall c | '0' <= c <= '9' ensures c in "0123456789" {
      assert "0123456789"[c as int - 48] == c;
    }
  }

  /** A name of signs that stay is its own identifier; one with a sign that is not known keeps 48 signs of its slug. */
  lemma IdMeans(sha: Sha256, name: string)
    ensures name != "" && (forall c :: c in name ==> SafeChar(c)) ==> ExitID(sha, name) == name
    ensures name != "" && (exists c :: c in name && !SafeChar(c)) && (forall c :: c in name ==> Legacy([c])) ==>
              ExitID(sha, name) == Joined(Spelling(name))
    ensures name == "" || (exists c :: c in name && !Legacy([c])) ==>
              var words := Joined(Spelling(name));
              && |ExitID(sha, name)| == 17 + (if |words| < 48 then |words| else 48)
              && words[..|ExitID(sha, name)| - 17] == ExitID(sha, name)[..|ExitID(sha, name)| - 17]
              && ExitID(sha, name)[|ExitID(sha, name)| - 17..] == "_" + Hex(sha(name)[..8])
  {
    hide Slug, Hex, Spelling, Joined, Safe, Legacy, SafeChar;
    StemSpells(name);
    SafeIff(name);
  }

  lemma SafeIff(name: string)
    ensures Safe(name) <==> name != "" && forall c :: c in name ==> SafeChar(c)
    ensures Legacy(name) <==> name != "" && forall c :: c in name ==> Legacy([c])
    ensures Safe(name) ==> Legacy(name)
  {
    assert forall i :: 0 <= i < |name| ==> name[i] in name;
    forall c | c in name ensures Legacy([c]) <==> SafeChar(c) || c == '.' || c == '-' {
      assert [c][0] == c;
    }
  }

  /** Two hexadecimal digits for each byte, the high one first. */
  lemma {:induction false} HexMeans(bytes: seq<byte>, i: nat)
    requires i < |bytes|
    ensures Hex(bytes)[2 * i] == "0123456789abcdef"[bytes[i] as int / 16]
    ensures Hex(bytes)[2 * i + 1] == "0123456789abcdef"[bytes[i] as int % 16]
  {
    if i > 0 {
      HexMeans(bytes[1..], i - 1);
    }
  }

  /** No two names of the set share an identifier. */
  ghost predicate Apart(sha: Sha256, names: set<string>) {
    forall a, b :: a in names && b in names && ExitID(sha, a) == ExitID(sha, b) ==> a == b
  }

  /** Names that are not safe share their identifier with a different name that is. */
  lemma UnsafeHasTwin(sha: Sha256, name: string)
    requires !Safe(name)
    ensures Safe(ExitID(sha, name)) && ExitID(sha, name) != name && ExitID(sha, ExitID(sha, name)) == ExitID(sha, name)
  {
    hide ExitID;
    IdIsSafe(sha, name);
  }

  /** Hence a set of exits is apart, and stays so whatever safe name joins it, if and only if all its names are safe. */
  lemma SafeNamesApartIff(sha: Sha256, names: set<string>)
    ensures (forall name :: Safe(name) ==> Apart(sha, names + {name})) <==> forall name :: name in names ==> Safe(name)
  {
    hide ExitID;
    if forall name :: name in names ==> Safe(name) {
      forall a, b | Safe(a) && Safe(b) && ExitID(sha, a) == ExitID(sha, b) ensures a == b {
        SameIdIff(sha, a, b);
      }
    } else {
      var bad :| bad in names && !Safe(bad);
      UnsafeHasTwin(sha, bad);
      var twin := ExitID(sha, bad);
      assert bad in names + {twin} && twin in names + {twin};
      assert !Apart(sha, names + {twin});
    }
  }

  /** An instance: a dash and an underscore look the same. */
  lemma DashAndUnderscoreClash(sha: Sha256)
    ensures Clash(sha, "t-s", "t_s") && ExitID(sha, "t-s") == ExitID(sha, "t_s")
  {
    var name := "t-s";
    assert name[1..] == "-s" && "-s"[1..] == "s" && "s"[1..] == "";
    assert ReplaceUnsafe("s") == "s";
    assert ReplaceUnsafe("-s") == "_s";
    assert ReplaceUnsafe(name) == "t_s";
    TrimKeeps("t_s", UNDERSCORE);
    assert !Safe(name) by {
      assert !SafeChar(name[1]);
    }
    SameIdIff(sha, name, "t_s");
  }
}
