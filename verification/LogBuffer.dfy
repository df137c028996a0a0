/**
  The log buffer: a ring of bytes that holds the last `limit` bytes ever written, and one notification
  channel of capacity one for each subscriber. `written` is everything written so far.
  */
module LogBuffer {
  import opened Text
  import opened Bytes

  const NEWLINE: byte := 10

  /** The last n elements. */
  function Last(s: seq<byte>, n: nat): (r: seq<byte>)
    ensures |r| == if |s| <= n then |s| else n
  {
    if |s| <= n then s else s[|s| - n..]
  }

  function Newlines(s: seq<byte>): nat {
    if s == [] then 0 else Newlines(s[1..]) + if s[0] == NEWLINE then 1 else 0
  }

  /** bytes.TrimLeft(s, "\n"). */
  function StripNewlines(s: seq<byte>): seq<byte> {
    if s != [] && s[0] == NEWLINE then StripNewlines(s[1..]) else s
  }

  /** The suffix from `from` has at most `lines` newlines, and every longer suffix has more. */
  ghost predicate LongestSuffix(s: seq<byte>, lines: int, from: nat) {
    && from <= |s| && Newlines(s[from..]) <= lines
    && forall k :: 0 <= k < from ==> Newlines(s[k..]) > lines
  }

  /** What a snapshot of `lines` lines shows of everything written. */
  ghost predicate ShowsTail(text: seq<byte>, written: seq<byte>, limit: nat, lines: int) {
    if lines <= 0 then text == Last(written, limit)
    else exists from: nat :: LongestSuffix(Last(written, limit), lines, from)
                        && text == if from == 0 then Last(written, limit)
                            else StripNewlines(Last(written, limit)[from..])
  }

  /** The tail in plain terms: all of it, or what follows some newline, without newlines at its start. */
  ghost predicate IsTail(text: seq<byte>, held: seq<byte>, lines: int) {
    || (lines <= 0 && text == held)
    || (lines > 0 && text == held && Count(held, 10) <= lines)
    || (lines > 0 && Count(held, 10) > lines && (text == [] || text[0] != 10) &&
        exists front, gap :: held == front + gap + text && gap != [] && (forall b :: b in gap ==> b == 10) &&
          Count(gap + text, 10) == lines + 1)
  }

  /** How many bytes of `s` are `b`. */
  ghost function Count(s: seq<byte>, b: byte): nat {
    multiset(s)[b]
  }

  lemma {:induction false} NewlinesCount(s: seq<byte>)
    ensures Newlines(s) == Count(s, 10)
  {
    if s == [] {
    } else {
      NewlinesCount(s[1..]);
      assert s == [s[0]] + s[1..];
    }
  }

  lemma {:induction false} StripMeans(s: seq<byte>)
    ensures |StripNewlines(s)| <= |s|
    ensures var n := |s| - |StripNewlines(s)|;
            && s[n..] == StripNewlines(s) && (forall b :: b in s[..n] ==> b == 10)
            && (n < |s| ==> s[n] != 10)
  {
    if s == [] || s[0] != 10 {
    } else {
      StripMeans(s[1..]);
      var n := |s| - |StripNewlines(s)|;
      assert s[..n] == [s[0]] + s[1..][..n - 1];
    }
  }

  /** One newline more than was asked for ends what is cut off. */
  lemma CutAtNewline(s: seq<byte>, lines: int, from: nat)
    requires lines > 0 && LongestSuffix(s, lines, from) && from > 0
    ensures s[from - 1] == 10 && Count(s[from - 1..], 10) == lines + 1 && Count(s, 10) > lines
  {
    assert s[from - 1..][1..] == s[from..];
    assert s[0..] == s;
    NewlinesCount(s[from - 1..]);
    NewlinesCount(s);
  }

  lemma CutIsTail(held: seq<byte>, lines: int, from: nat)
    requires lines > 0 && from <= |held| && LongestSuffix(held, lines, from)
    ensures IsTail(if from == 0 then held else StripNewlines(held[from..]), held, lines)
  {
    hide Newlines, StripNewlines, LongestSuffix, Count;
    if from == 0 {
      AllInLines(held, lines);
    } else {
      hide IsTail;
      CutAtNewline(held, lines, from);
      StripMeans(held[from..]);
      var text := StripNewlines(held[from..]);
      var n := |held| - |text|;
      CutInThree(held, from - 1, n);
      TailBehind(text, held, lines, held[..from - 1], held[from - 1..n]);
    }
  }

  lemma TailBehind(text: seq<byte>, held: seq<byte>, lines: int, front: seq<byte>, gap: seq<byte>)
    requires lines > 0 && held == front + gap + text && gap != [] && (text == [] || text[0] != 10)
    requires (forall b :: b in gap ==> b == 10) && Count(gap + text, 10) == lines + 1 && Count(held, 10) > lines
    ensures IsTail(text, held, lines)
  {
    hide Count;
  }

  lemma AllInLines(held: seq<byte>, lines: int)
    requires LongestSuffix(held, lines, 0)
    ensures Count(held, 10) <= lines
  {
    assert held[0..] == held;
    NewlinesCount(held);
  }

  lemma CutInThree(held: seq<byte>, i: nat, n: nat)
    requires i < n <= |held|
    ensures held == held[..i] + held[i..n] + held[n..] && held[i..n] + held[n..] == held[i..]
    ensures held[i..n] == [held[i]] + held[i + 1..][..n - i - 1] && held[i + 1..][n - i - 1..] == held[n..]
  {
  }

  /** What a snapshot shows is the tail of the last bytes written. */
  lemma SnapshotMeans(text: seq<byte>, written: seq<byte>, limit: nat, lines: int)
    requires ShowsTail(text, written, limit, lines)
    ensures IsTail(text, Last(written, limit), lines)
  {
    hide Last, StripNewlines, Count;
    var held := Last(written, limit);
    if lines > 0 {
      var from: nat :| LongestSuffix(held, lines, from)
                       && text == if from == 0 then held else StripNewlines(held[from..]);
      CutIsTail(held, lines, from);
    }
  }

  /** Positions in the ring wrap once. */
  function Wrap(k: nat, limit: nat): nat
    requires 0 < limit && k < 2 * limit
  {
    if k < limit then k else k - limit
  }

  lemma WrapIsModulo(k: nat, limit: nat)
    requires 0 < limit && k < 2 * limit
    ensures k % limit == Wrap(k, limit)
  {
    if k >= limit {
      assert k == (k - limit) + 1 * limit;
      ModOnce(k - limit, limit);
    }
  }

  lemma ModOnce(r: nat, limit: nat)
    requires r < limit
    ensures (r + limit) % limit == r
  {
  }

  /** The source's `% b.limit`. */
  method RingIndex(k: nat, limit: nat) returns (r: nat)
    requires 0 < limit && k < 2 * limit
    ensures r == Wrap(k, limit)
  {
    WrapIsModulo(k, limit);
    r := k % limit;
  }

  lemma LastAt(s: seq<byte>, n: nat, i: nat)
    requires i < |Last(s, n)|
    ensures Last(s, n)[i] == s[i + (|s| - |Last(s, n)|)]
  {
  }

  lemma LastConcat(s: seq<byte>, p: seq<byte>, n: nat)
    ensures Last(s + p, n) == Last(Last(s, n) + p, n)
    ensures |p| >= n ==> Last(s + p, n) == p[|p| - n..] && |p[|p| - n..]| == n
  {
  }

  /** The ring holds `held`, from `start` on. */
  ghost predicate Holds(data: seq<byte>, start: nat, held: seq<byte>) {
    && 0 < |data| && start < |data| && |held| <= |data|
    && forall i :: 0 <= i < |held| ==> data[Wrap(start + i, |data|)] == held[i]
  }

  /** A non-blocking send to a channel of capacity one. */
  function Offer(channel: Option<nat>, sequence: nat): Option<nat> {
    if channel.None? then Some(sequence) else channel
  }

  function OfferAll(subs: map<nat, Option<nat>>, sequence: nat): map<nat, Option<nat>> {
    map id | id in subs :: Offer(subs[id], sequence)
  }

  /** `after` is `before` with p written at the ring's end, in two pieces when it wraps. */
  ghost predicate WrittenAt(before: seq<byte>, after: seq<byte>, end: nat, p: seq<byte>, first: nat) {
    && |after| == |before| && first <= |p| && end + first <= |before| && |p| - first <= end
    && (first == |p| || end + first == |before|)
    && (forall i :: 0 <= i < first ==> after[end + i] == p[i])
    && (forall i :: 0 <= i < |p| - first ==> after[i] == p[first + i])
    && (forall i :: 0 <= i < |before| && !(end <= i < end + first) && !(i < |p| - first) ==> after[i] == before[i])
  }

  function Overflow(held: nat, more: nat, limit: nat): nat {
    if held + more > limit then held + more - limit else 0
  }

  lemma OldByteStays(before: seq<byte>, after: seq<byte>, start: nat, held: seq<byte>, p: seq<byte>, first: nat, k: nat)
    requires Holds(before, start, held) && |p| < |before|
    requires WrittenAt(before, after, Wrap(start + |held|, |before|), p, first)
    requires Overflow(|held|, |p|, |before|) <= k < |held|
    ensures after[Wrap(start + k, |before|)] == held[k]
  {
    var end, at := Wrap(start + |held|, |before|), Wrap(start + k, |before|);
    assert before[at] == held[k];
    assert !(end <= at < end + first) && !(at < |p| - first);
  }

  lemma NewByteIsThere(before: seq<byte>, after: seq<byte>, start: nat, held: seq<byte>, p: seq<byte>, first: nat,
      j: nat)
    requires Holds(before, start, held) && |p| < |before|
    requires WrittenAt(before, after, Wrap(start + |held|, |before|), p, first)
    requires j < |p|
    ensures after[Wrap(Wrap(start + |held|, |before|) + j, |before|)] == p[j]
  {
    var end := Wrap(start + |held|, |before|);
    if j < first {
      assert Wrap(end + j, |before|) == end + j;
    } else {
      assert Wrap(end + j, |before|) == j - first;
      assert after[j - first] == p[first + (j - first)];
    }
  }

  /** The byte at position i of the ring after the write; k is its place in what was held and written. */
  lemma RingAt(before: seq<byte>, after: seq<byte>, start: nat, held: seq<byte>, p: seq<byte>, first: nat, i: nat)
    requires Holds(before, start, held) && |p| < |before|
    requires WrittenAt(before, after, Wrap(start + |held|, |before|), p, first)
    requires i + Overflow(|held|, |p|, |before|) < |held| + |p|
    ensures Overflow(|held|, |p|, |before|) < |before|
    ensures Wrap(start + Overflow(|held|, |p|, |before|), |before|) + i < 2 * |before|
    ensures after[Wrap(Wrap(start + Overflow(|held|, |p|, |before|), |before|) + i, |before|)] ==
              (held + p)[i + Overflow(|held|, |p|, |before|)]
  {
    hide WrittenAt;
    var k := i + Overflow(|held|, |p|, |before|);
    if k < |held| {
      OldByteStays(before, after, start, held, p, first, k);
    } else {
      NewByteIsThere(before, after, start, held, p, first, k - |held|);
    }
  }

  lemma RingWrites(before: seq<byte>, after: seq<byte>, start: nat, held: seq<byte>, p: seq<byte>, first: nat)
    requires Holds(before, start, held) && |p| < |before|
    requires WrittenAt(before, after, Wrap(start + |held|, |before|), p, first)
    ensures Overflow(|held|, |p|, |before|) < |before|
    ensures Holds(after, Wrap(start + Overflow(|held|, |p|, |before|), |before|), Last(held + p, |before|))
  {
    var kept := Last(held + p, |before|);
    var begin := Wrap(start + Overflow(|held|, |p|, |before|), |before|);
    forall i | 0 <= i < |kept| ensures after[Wrap(begin + i, |before|)] == kept[i] {
      hide WrittenAt, Wrap, Last;
      LastAt(held + p, |before|, i);
      RingAt(before, after, start, held, p, first, i);
    }
  }

  class LogBuffer {
    const limit: nat
    const data: array<byte>
    var start: nat
    var size: nat
    var sequence: nat
    var nextSub: nat
    var subs: map<nat, Option<nat>>
    ghost var written: seq<byte>

    constructor (limit: int)
      ensures Valid() && written == [] && sequence == 0 && subs == map[] && fresh(data)
      ensures this.limit == if limit <= 0 then 0x100000 else limit
    {
      var size := if limit <= 0 then 0x100000 else limit;
      this.limit := size;
      data := new byte[size];
      start, this.size, sequence, nextSub, subs, written := 0, 0, 0, 0, map[], [];
    }

    /** The ring holds the last `limit` bytes of everything written. */
    ghost predicate Valid()
      reads this, data
    {
      && 0 < limit == data.Length && size == |Last(written, limit)|
      && Holds(data[..], start, Last(written, limit))
      && (forall id :: id in subs ==> id <= nextSub && (subs[id].Some? ==> subs[id].value <= sequence))
    }

    /** Write: every byte is taken, and a write that is not empty is announced to every subscriber. */
    method Write(p: seq<byte>) returns (n: nat)
      requires Valid()
      modifies this`start, this`size, this`sequence, this`subs, this`written, data
      ensures Valid() && n == |p| && written == old(written) + p
      ensures sequence == old(sequence) + if p == [] then 0 else 1
      ensures subs == if p == [] then old(subs) else OfferAll(old(subs), sequence)
      ensures p != [] ==> subs.Keys == old(subs).Keys && forall id :: id in subs ==>
                subs[id] == if old(subs)[id] == None then Some(sequence) else old(subs)[id]
    {
      n := |p|;
      if p == [] {
        assert written + p == written;
        return;
      }
      LastConcat(written, p, limit);
      hide Holds, Last;
      if |p| >= limit {
        PutWhole(p);
      } else {
        PutAtEnd(p);
      }
      written := written + p;
      sequence := sequence + 1;
      subs := OfferAll(subs, sequence);
    }

    /** The part of Write for a write that fills the ring. */
    method PutWhole(p: seq<byte>)
      requires 0 < limit == data.Length && |p| >= limit
      modifies this`start, this`size, data
      ensures size == limit && Holds(data[..], start, p[|p| - limit..])
    {
      forall i | 0 <= i < limit {
        data[i] := p[|p| - limit + i];
      }
      start, size := 0, limit;
    }

    /** The part of Write for a write that is shorter than the ring. */
    method PutAtEnd(p: seq<byte>)
      requires Valid() && 0 < |p| < limit
      modifies this`start, this`size, data
      ensures size == |Last(Last(written, limit) + p, limit)|
      ensures Holds(data[..], start, Last(Last(written, limit) + p, limit))
    {
      hide Holds, Last, WrittenAt;
      ghost var before, held := data[..], Last(written, limit);
      var end, first, begin, length := Places(p);
      CopyIn(end, p, first);
      RingWrites(before, data[..], start, held, p, first);
      start, size := begin, length;
    }

    /** Where a write goes: the end of what is held, how much fits before the wrap, and the new start and size. */
    method Places(p: seq<byte>) returns (end: nat, first: nat, begin: nat, length: nat)
      requires Valid() && 0 < |p| < limit
      ensures size == |Last(written, limit)| && |data[..]| == limit && Holds(data[..], start, Last(written, limit))
      ensures end == Wrap(start + size, limit) < limit == data.Length
      ensures first == if |p| <= limit - end then |p| else limit - end
      ensures begin == Wrap(start + Overflow(size, |p|, limit), limit)
      ensures length == if limit <= size + |p| then limit else size + |p|
    {
      hide Last;
      end := RingIndex(start + size, limit);
      begin := start;
      var overflow := size + |p| - limit;
      if overflow > 0 {
        begin := RingIndex(start + overflow, limit);
      }
      first := if |p| <= limit - end then |p| else limit - end;
      length := if limit <= size + |p| then limit else size + |p|;
    }

    /** The two calls of copy. */
    method CopyIn(end: nat, p: seq<byte>, first: nat)
      requires end < data.Length && |p| < data.Length &&
                 first == (if |p| <= data.Length - end then |p| else data.Length - end)
      modifies data
      ensures WrittenAt(old(data[..]), data[..], end, p, first)
    {
      forall i | 0 <= i < first {
        data[end + i] := p[i];
      }
      forall i | 0 <= i < |p| - first {
        data[i] := p[first + i];
      }
    }

    /** Snapshot. */
    method Snapshot(lines: int) returns (text: seq<byte>, sequence: nat)
      requires Valid()
      ensures sequence == this.sequence && ShowsTail(text, written, limit, lines)
    {
      var first := if size <= limit - start then size else limit - start;
      var all := data[start..start + first] + data[..size - first];
      assert all == Last(written, limit) by {
        forall i | 0 <= i < size ensures all[i] == Last(written, limit)[i] {
          assert data[..][Wrap(start + i, limit)] == all[i];
        }
      }
      sequence := this.sequence;
      if lines <= 0 {
        return all, sequence;
      }
      var count := 0;
      var i := |all| - 1;
      assert all[|all|..] == [];
      while i >= 0
        invariant -1 <= i < |all|
        invariant count == Newlines(all[i + 1..]) <= lines
      {
        assert all[i..][1..] == all[i + 1..];
        if all[i] == NEWLINE {
          count := count + 1;
          if count > lines {
            SuffixesGrow(all, i);
            assert LongestSuffix(all, lines, i + 1);
            return StripNewlines(all[i + 1..]), sequence;
          }
        }
        i := i - 1;
      }
      assert LongestSuffix(all, lines, 0);
      text := all;
    }

    /** Subscribe. */
    method Subscribe() returns (id: nat)
      requires Valid()
      modifies this`nextSub, this`subs
      ensures Valid() && id !in old(subs) && subs == old(subs)[id := None]
    {
      nextSub := nextSub + 1;
      id := nextSub;
      subs := subs[id := None];
    }

    /** The function that Subscribe returns; a second call finds nothing to remove. */
    method Unsubscribe(id: nat)
      requires Valid()
      modifies this`subs
      ensures Valid() && subs == old(subs) - {id}
    {
      subs := subs - {id};
    }

    /** A receive from the channel of a subscriber, when there is something in it. */
    method Receive(id: nat) returns (sequence: nat)
      requires Valid() && id in subs && subs[id].Some?
      modifies this`subs
      ensures Valid() && sequence == old(subs)[id].value && subs == old(subs)[id := None]
    {
      sequence := subs[id].value;
      subs := subs[id := None];
    }
  }

  lemma {:induction false} SuffixesGrow(s: seq<byte>, k: nat)
    requires k <= |s|
    ensures forall j :: 0 <= j <= k ==> Newlines(s[j..]) >= Newlines(s[k..])
  {
    if k == 0 {
    } else {
      SuffixesGrow(s, k - 1);
      assert s[k - 1..][1..] == s[k..];
    }
  }
}
