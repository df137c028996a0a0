/**
  Host names as the compiled index sees them: one normaliser for hosts and rule values, and the
  labels of a host read from the right. The two facts that the index rests on are proved here: when
  the index's normaliser agrees with the simple one, and that a label prefix is a domain suffix.
  */
module Hosts {
  import opened Text
  import opened Rules

  /** normalizeMatchHost. */
  function Norm(value: string): string {
    Lower(Trim(TrimSpace(value), DOT))
  }

  /** The same text without the dots at its ends. */
  ghost predicate Bared(s: string, t: string) {
    && (exists left, right :: s == left + t + right && forall c :: c in left + right ==> c == '.')
    && (t != "" ==> t[0] != '.' && t[|t| - 1] != '.')
  }

  lemma TrimDotsMeans(s: string)
    ensures Bared(s, Trim(s, DOT))
  {
    hide TrimLeft, TrimRight;
    TrimKeeps(s, DOT);
    TrimLeftCuts(s, DOT);
    TrimRightCuts(TrimLeft(s, DOT), DOT);
    var left, right := s[..|s| - |TrimLeft(s, DOT)|], TrimLeft(s, DOT)[|Trim(s, DOT)|..];
    assert s == left + Trim(s, DOT) + right;
  }

  /** What the index looks up: the spaces at the ends go, then the dots, and capitals become small. */
  lemma NormMeans(value: string)
    ensures exists core, inner :: Unspaced(value, core) && Bared(core, inner) && Folded(inner, Norm(value))
  {
    hide Trim, Unspaced, Bared, Folded, Lower, TrimSpace;
    var core := TrimSpace(value);
    TrimSpaceMeans(value);
    TrimDotsMeans(core);
    LowerMeans(Trim(core, DOT));
  }

  /** No space at either end, and no dot left at either end once one trailing dot is gone. */
  predicate Canonical(host: string) {
    && NoEdge(host, SPACES)
    && NoEdge(DropLastDot(host), DOT)
  }

  /** As Canonical, but one leading dot is accepted too, as the simple suffix matcher accepts it. */
  predicate CanonicalSuffix(value: string) {
    && NoEdge(value, SPACES)
    && NoEdge(DropFirstDot(DropLastDot(value)), DOT)
  }

  predicate CanonicalRule(rule: Rule) {
    && (forall v :: v in rule.domain ==> Canonical(v))
    && (forall v :: v in rule.domainSuffix ==> CanonicalSuffix(v))
  }

  /** Trim against the suffix trim: never longer, and equal exactly when no dot is left at an end. */
  lemma TrimOneDot(s: string)
    ensures |Trim(s, DOT)| <= |DropLastDot(s)|
    ensures |Trim(s, DOT)| == |DropLastDot(s)| ==> Trim(s, DOT) == DropLastDot(s)
    ensures Trim(s, DOT) == DropLastDot(s) <==> NoEdge(DropLastDot(s), DOT)
  {
    TrimKeeps(s, DOT);
    if s != [] && s[|s| - 1] == '.' {
      var d := DropLastDot(s);
      TrimSkipsLast(s);
      TrimKeeps(d, DOT);
    }
  }

  lemma TrimSkipsLast(s: string)
    requires s != [] && s[|s| - 1] == '.'
    ensures Trim(s, DOT) == Trim(s[..|s| - 1], DOT)
  {
    var d := s[..|s| - 1];
    TrimLeftSkips(s);
  }

  lemma {:induction false} TrimLeftSkips(s: string)
    requires s != [] && s[|s| - 1] == '.'
    ensures TrimRight(TrimLeft(s, DOT), DOT) == TrimRight(TrimLeft(s[..|s| - 1], DOT), DOT)
  {
    var d := s[..|s| - 1];
    if d == [] {
      assert TrimLeft(s, DOT) == TrimLeft(s[1..], DOT) == [];
    } else if s[0] == '.' {
      assert s[1..][..|s| - 2] == d[1..];
      TrimLeftSkips(s[1..]);
    } else {
      assert TrimLeft(s, DOT) == s && TrimLeft(d, DOT) == d;
    }
  }

  lemma TrimBothDots(s: string)
    ensures |Trim(s, DOT)| <= |DropFirstDot(DropLastDot(s))|
    ensures |Trim(s, DOT)| == |DropFirstDot(DropLastDot(s))| ==> Trim(s, DOT) == DropFirstDot(DropLastDot(s))
    ensures Trim(s, DOT) == DropFirstDot(DropLastDot(s)) <==> NoEdge(DropFirstDot(DropLastDot(s)), DOT)
  {
    if s != [] && s[0] == '.' {
      assert TrimLeft(s, DOT) == TrimLeft(s[1..], DOT);
      TrimOneDot(s[1..]);
      if |s| == 1 {
        assert DropLastDot(s) == s[1..] == [];
      } else {
        assert DropFirstDot(DropLastDot(s)) == DropLastDot(s[1..]);
      }
    } else {
      assert DropFirstDot(DropLastDot(s)) == DropLastDot(s);
      TrimOneDot(s);
    }
  }

  /** A space at an end makes the index's normaliser cut more than the simple one. */
  lemma SpaceEdgeShorter(value: string)
    requires !NoEdge(value, SPACES)
    ensures |Trim(TrimSpace(value), DOT)| < |DropFirstDot(DropLastDot(value))|
    ensures |Trim(TrimSpace(value), DOT)| < |DropLastDot(value)|
  {
    hide Trim;
    var inner := TrimSpace(value);
    TrimKeeps(value, SPACES);
    TrimOneDot(inner);
    TrimBothDots(inner);
    TrimKeeps(inner, DOT);
  }

  /** The index's normaliser and the simple one give the same host exactly on canonical hosts. */
  lemma NormalisersAgreeIff(host: string)
    ensures Norm(host) == Lower(DropLastDot(host)) <==> Canonical(host)
    ensures |Norm(host)| <= |DropLastDot(host)|
  {
    hide Trim, DropLastDot;
    TrimKeeps(host, SPACES);
    TrimOneDot(host);
    if !NoEdge(host, SPACES) {
      SpaceEdgeShorter(host);
    }
    assert |Norm(host)| == |Trim(TrimSpace(host), DOT)| && |Lower(DropLastDot(host))| == |DropLastDot(host)|;
  }

  /** The same for suffix values, where the simple matcher also drops one leading dot. */
  lemma SuffixNormalisersAgreeIff(value: string)
    ensures Norm(value) == SuffixOf(value) <==> CanonicalSuffix(value)
    ensures |Norm(value)| <= |SuffixOf(value)| &&
              (|Norm(value)| == |SuffixOf(value)| ==> Norm(value) == SuffixOf(value))
  {
    hide Trim, DropFirstDot, DropLastDot;
    TrimKeeps(value, SPACES);
    TrimBothDots(value);
    if !NoEdge(value, SPACES) {
      SpaceEdgeShorter(value);
    }
    assert |Norm(value)| == |Trim(TrimSpace(value), DOT)| && |SuffixOf(value)| == |DropFirstDot(DropLastDot(value))|;
  }

  /** strings.LastIndexByte(s, '.'): -1 when there is no dot. */
  function LastDot(s: string): (i: int)
    ensures -1 <= i < |s|
    ensures i >= 0 ==> s[i] == '.'
    ensures forall k :: i < k < |s| ==> s[k] != '.'
  {
    if s == [] then -1
    else if s[|s| - 1] == '.' then |s| - 1
    else LastDot(s[..|s| - 1])
  }

  /** The dot-separated labels of a host, from the last to the first. */
  function Labels(s: string): (r: seq<string>)
    ensures r != []
    decreases |s|
  {
    var dot := LastDot(s);
    if dot < 0 then [s] else [s[dot + 1..]] + Labels(s[..dot])
  }

  function JoinLabels(labels: seq<string>): string
    requires labels != []
  {
    if |labels| == 1 then labels[0] else JoinLabels(labels[1..]) + "." + labels[0]
  }

  lemma {:induction false} JoinUndoesLabels(s: string)
    ensures JoinLabels(Labels(s)) == s
    decreases |s|
  {
    hide LastDot;
    var dot := LastDot(s);
    if dot < 0 {
    } else {
      JoinUndoesLabels(s[..dot]);
      assert Labels(s)[1..] == Labels(s[..dot]);
      assert s == s[..dot] + "." + s[dot + 1..];
    }
  }

  lemma {:induction false} JoinConcat(front: seq<string>, back: seq<string>)
    requires front != [] && back != []
    ensures JoinLabels(front + back) == JoinLabels(back) + "." + JoinLabels(front)
  {
    var all := front + back;
    if |front| == 1 {
      assert all[1..] == back;
    } else {
      assert all[1..] == front[1..] + back;
      JoinConcat(front[1..], back);
    }
  }

  lemma {:induction false} LastDotAfter(pre: string, s: string)
    ensures LastDot(pre + "." + s) == |pre| + 1 + LastDot(s)
  {
    var all := pre + "." + s;
    var i := LastDot(all);
    assert all[|pre|] == '.';
    assert i >= |pre|;
    assert forall k :: 0 <= k < |s| ==> all[|pre| + 1 + k] == s[k];
  }

  lemma {:induction false} LabelsStep(all: string, front: string, last: string)
    requires all == front + "." + last && LastDot(last) < 0
    ensures Labels(all) == [last] + Labels(front)
  {
    LastDotAfter(front, last);
    assert all[..|front|] == front && all[|front| + 1..] == last;
  }

  lemma {:induction false} LabelsConcat(pre: string, s: string)
    ensures Labels(pre + "." + s) == Labels(s) + Labels(pre)
    decreases |s|
  {
    hide LastDot;
    var dot := LastDot(s);
    if dot < 0 {
      LabelsStep(pre + "." + s, pre, s);
      assert Labels(s) == [s];
    } else {
      var front, last := s[..dot], s[dot + 1..];
      LabelsConcat(pre, front);
      NoDotAfterLast(s);
      assert pre + "." + s == (pre + "." + front) + "." + last;
      LabelsStep(pre + "." + s, pre + "." + front, last);
      assert Labels(s) == [last] + Labels(front);
    }
  }

  lemma {:induction false} NoDotAfterLast(s: string)
    ensures LastDot(s[LastDot(s) + 1..]) < 0
  {
  }

  /** A domain is the host or a dot-separated suffix of it exactly when its labels start the host's. */
  lemma {:induction false} LabelPrefixIsSuffix(host: string, suffix: string)
    ensures host == suffix || HasSuffix(host, "." + suffix) <==> Labels(suffix) <= Labels(host)
  {
    if HasSuffix(host, "." + suffix) {
      var pre := host[..|host| - |"." + suffix|];
      assert host == pre + "." + suffix;
      LabelsConcat(pre, suffix);
    }
    if Labels(suffix) <= Labels(host) {
      PrefixGivesSuffix(host, suffix);
    }
  }

  lemma {:induction false} PrefixGivesSuffix(host: string, suffix: string)
    requires Labels(suffix) <= Labels(host)
    ensures host == suffix || HasSuffix(host, "." + suffix)
  {
    var front, all := Labels(suffix), Labels(host);
    JoinUndoesLabels(host);
    JoinUndoesLabels(suffix);
    if |front| == |all| {
      assert front == all;
    } else {
      var rest := all[|front|..];
      assert all == front + rest;
      JoinConcat(front, rest);
      assert JoinLabels(all) == JoinLabels(rest) + "." + JoinLabels(front);
      assert host == JoinLabels(rest) + "." + suffix;
      AssocDot(JoinLabels(rest), suffix);
    }
  }

  lemma AssocDot(pre: string, suffix: string)
    ensures HasSuffix(pre + "." + suffix, "." + suffix)
  {
    var all, tail := pre + "." + suffix, "." + suffix;
    assert all[|pre|..] == tail;
  }

  /** The values that the index stores for a rule, in its own terms. */
  predicate IndexedExact(value: string, host: string) {
    Norm(value) == host
  }

  predicate IndexedSuffix(value: string, host: string) {
    Labels(Norm(value)) <= Labels(host)
  }

  lemma NormEdges(value: string)
    requires Norm(value) != ""
    ensures NoEdge(Norm(value), DOT) && Lower(Norm(value)) == Norm(value)
  {
    hide Trim, NoEdge;
    var t := Trim(TrimSpace(value), DOT);
    TrimKeeps(TrimSpace(value), DOT);
    LowerKeepsEdges(t);
    LowerIdempotent(t);
  }

  lemma LowerKeepsEdges(s: string)
    ensures NoEdge(Lower(s), DOT) <==> NoEdge(s, DOT)
    ensures NoEdge(Lower(s), SPACES) <==> NoEdge(s, SPACES)
  {
    if s == "" {
    } else {
      assert Lower(s)[0] == LowerChar(s[0]) && Lower(s)[|s| - 1] == LowerChar(s[|s| - 1]);
    }
  }

  /** A name without a space in front is what a canonical host, with its trailing dot, is normalised to. */
  lemma DottedHost(name: string)
    requires name != "" && name[0] !in SPACES && NoEdge(name, DOT) && Lower(name) == name
    ensures Canonical(name + ".") && Norm(name + ".") == name
  {
    var host := name + ".";
    assert DropLastDot(host) == name;
    NormalisersAgreeIff(host);
  }

  lemma CanonicalStarts(host: string)
    requires Canonical(host)
    ensures Norm(host) == Lower(DropLastDot(host)) && NoEdge(Norm(host), DOT)
    ensures Norm(host) != "" ==> Norm(host)[0] !in SPACES
  {
    hide Norm;
    NormalisersAgreeIff(host);
    LowerKeepsEdges(DropLastDot(host));
    if Norm(host) != "" {
      assert Norm(host)[0] == LowerChar(host[0]);
    }
  }

  /** What is normalised to something with a space in front starts with a dot or a space itself. */
  lemma SpaceInFront(value: string)
    requires Norm(value) != "" && Norm(value)[0] in SPACES
    ensures Lower(DropLastDot(value)) != "" && Lower(DropLastDot(value))[0] in SPACES + DOT
  {
    var inner := TrimSpace(value);
    TrimKeeps(value, SPACES);
    TrimKeeps(inner, DOT);
    TrimOneDot(value);
    var t := Trim(inner, DOT);
    assert Norm(value)[0] == LowerChar(t[0]);
    assert value != "" && value[0] in SPACES + DOT;
    NormalisersAgreeIff(value);
  }

  /**
    An exact value means the same to the index and to the simple matcher, on every canonical host, exactly when it
    is canonical, or is normalised to something with a space in front, which neither finds in any canonical host.
    */
  lemma ExactAgreesIff(value: string)
    requires Norm(value) != ""
    ensures (forall h :: Canonical(h) ==>
              (IndexedExact(value, Norm(h)) <==> MatchesExact(value, Lower(DropLastDot(h)))))
            <==> Canonical(value) || Norm(value)[0] in SPACES
  {
    hide Norm, Canonical, DropLastDot, NoEdge;
    NormalisersAgreeIff(value);
    NormEdges(value);
    forall h | Canonical(h)
      ensures MatchesExact(value, Lower(DropLastDot(h))) <==> Lower(DropLastDot(value)) == Norm(h)
      ensures Norm(value)[0] in SPACES ==> Norm(h) != Norm(value) && Norm(h) != Lower(DropLastDot(value))
    {
      CanonicalStarts(h);
      LowerIdempotent(DropLastDot(h));
      if Norm(value)[0] in SPACES {
        NeitherFinds(value, h);
      }
    }
    if Norm(value)[0] !in SPACES {
      DottedHost(Norm(value));
      var own := Norm(value) + ".";
      assert IndexedExact(value, Norm(own));
    }
  }

  lemma NeitherFinds(value: string, host: string)
    requires Canonical(host) && Norm(value) != "" && Norm(value)[0] in SPACES
    ensures Norm(host) != Norm(value) && Norm(host) != Lower(DropLastDot(value))
  {
    hide Norm, Canonical, DropLastDot;
    CanonicalStarts(host);
    SpaceInFront(value);
  }

  /** The same for suffix values: there only the canonical ones agree. */
  lemma SuffixAgreesIff(value: string)
    requires Norm(value) != ""
    ensures (forall h :: Canonical(h) ==>
              (IndexedSuffix(value, Norm(h)) <==> MatchesSuffix(value, Lower(DropLastDot(h)))))
            <==> CanonicalSuffix(value)
  {
    hide Norm, Labels, SuffixOf, Canonical, CanonicalSuffix, DropLastDot, NoEdge;
    SuffixNormalisersAgreeIff(value);
    forall h | Canonical(h)
      ensures Norm(h) == Lower(DropLastDot(h))
      ensures IndexedSuffix(value, Norm(h)) <==> Norm(h) == Norm(value) || HasSuffix(Norm(h), "." + Norm(value))
    {
      NormalisersAgreeIff(h);
      LabelPrefixIsSuffix(Norm(h), Norm(value));
    }
    BelowNorm(value, 'a');
    BelowNorm(value, 'b');
    var a, b := Below(Norm(value), 'a'), Below(Norm(value), 'b');
    assert IndexedSuffix(value, Norm(a + ".")) && IndexedSuffix(value, Norm(b + "."));
    assert a[0] != b[0];
  }

  /** A host one label below. */
  function Below(name: string, label_: char): string {
    [label_] + "." + name
  }

  lemma BelowShape(name: string, c: char)
    requires name != "" && NoEdge(name, DOT) && Lower(name) == name && (c == 'a' || c == 'b')
    ensures var host := Below(name, c);
            && Lower(host) == host && NoEdge(host, DOT)
            && HasSuffix(host, "." + name) && host[0] == c
  {
    var host := Below(name, c);
    assert host[1..] == "." + name;
    forall i | 0 <= i < |host| ensures LowerChar(host[i]) == host[i] {
      assert i >= 2 ==> host[i] == name[i - 2] == Lower(name)[i - 2];
    }
  }

  /** Nothing longer than the name is a suffix behind a dot. */
  lemma NothingLongerBelow(name: string, c: char, s: string)
    requires |s| > |name| && c != '.'
    ensures !HasSuffix(Below(name, c), "." + s)
  {
    var host, tail := Below(name, c), "." + s;
    assert host[0] != tail[0] && |tail| >= |host|;
  }

  /** It lies below the normalised value; below a longer value only if it is that value. */
  lemma BelowNorm(value: string, c: char)
    requires Norm(value) != "" && (c == 'a' || c == 'b')
    ensures var host := Below(Norm(value), c);
            && Canonical(host + ".") && Norm(host + ".") == host
            && HasSuffix(host, "." + Norm(value))
    ensures |SuffixOf(value)| > |Norm(value)| ==> !HasSuffix(Below(Norm(value), c), "." + SuffixOf(value))
  {
    hide Norm, Canonical, Below, NoEdge, SuffixOf;
    NormEdges(value);
    BelowShape(Norm(value), c);
    DottedHost(Below(Norm(value), c));
    if |SuffixOf(value)| > |Norm(value)| {
      NothingLongerBelow(Norm(value), c, SuffixOf(value));
    }
  }

  lemma NormIsCanonical(value: string)
    requires Norm(value) != "" && NoEdge(Norm(value), SPACES)
    ensures Canonical(Norm(value)) && Norm(Norm(value)) == Norm(value)
  {
    var t := Trim(TrimSpace(value), DOT);
    TrimKeeps(TrimSpace(value), DOT);
    assert t[0] != '.' && t[|t| - 1] != '.';
    assert Norm(value)[0] == LowerChar(t[0]) && Norm(value)[|t| - 1] == LowerChar(t[|t| - 1]);
    assert DropLastDot(Norm(value)) == Norm(value);
    NormalisersAgreeIff(Norm(value));
    LowerIdempotent(t);
  }
}
