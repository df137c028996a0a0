/**
  The panel's list of custom entries. It sorts rules and imports with a comparator of its own and
  moves an entry by swapping two and numbering all of them; the server sorts sources. The two orders
  are the same, and a move changes the server's order by that one swap.
  */
module Panel {
  import opened Rules
  import opened Ordering
  import opened Imports
  import opened RuleSources

  datatype Kind = RuleEntry | ImportEntry

  /** An entry shows one item of the file: the rule or import at `pos`, the `index`-th shown of its kind. */
  datatype Entry = Entry(kind: Kind, pos: nat, index: nat, priority: int)

  /** The panel's sort callback is negative. */
  predicate Above(left: Entry, right: Entry) {
    if left.priority != right.priority then
      if left.priority == 0 then false
      else if right.priority == 0 then true
      else left.priority < right.priority
    else if left.kind == right.kind then left.index < right.index
    else left.kind == RuleEntry
  }

  function Shown(kind: Kind, names: seq<string>, priorities: seq<int>, pos: nat, index: nat): seq<Entry>
    requires |names| == |priorities| && pos <= |names|
    decreases |names| - pos
  {
    if pos == |names| then []
    else if names[pos] in DEFAULT_NAMES then Shown(kind, names, priorities, pos + 1, index)
    else [Entry(kind, pos, index, priorities[pos])] + Shown(kind, names, priorities, pos + 1, index + 1)
  }

  function RuleNames(rules: seq<Rule>): seq<string> {
    seq(|rules|, i requires 0 <= i < |rules| => rules[i].name)
  }

  function RulePriorities(rules: seq<Rule>): seq<int> {
    seq(|rules|, i requires 0 <= i < |rules| => rules[i].priority)
  }

  function ImportNames(imports: seq<Import>): seq<string> {
    seq(|imports|, i requires 0 <= i < |imports| => imports[i].name)
  }

  function ImportPriorities(imports: seq<Import>): seq<int> {
    seq(|imports|, i requires 0 <= i < |imports| => imports[i].priority)
  }

  /** The entries in the order of the file: rules, then imports, without the default names. */
  function Entries(file: File): seq<Entry> {
    RuleEntries(file) + ImportEntries(file)
  }

  /** customEntries. */
  function CustomEntries(file: File): seq<Entry> {
    SortBy(Above, Entries(file))
  }

  /** The server's key of the source behind an entry. */
  function KeyOf(file: File, e: Entry): Key {
    Key(e.priority, false, if e.kind == RuleEntry then e.pos else |file.rules| + e.pos)
  }

  function KeysOf(file: File, entries: seq<Entry>): seq<Key> {
    seq(|entries|, i requires 0 <= i < |entries| => KeyOf(file, entries[i]))
  }

  /** The server's order of the sources that are not defaults. */
  function ServerOrder(file: File): seq<Key> {
    Filter((k: Key) => !k.defaulted, SortBy(Before, Keys(file)))
  }

  ghost predicate ShowsRight(kind: Kind, names: seq<string>, priorities: seq<int>, e: Entry)
    requires |names| == |priorities|
  {
    e.kind == kind && e.pos < |names| && e.priority == priorities[e.pos] && names[e.pos] !in DEFAULT_NAMES
  }

  /** The shown entries are items without a default name, … */
  lemma {:induction false} ShownIsRight(
      kind: Kind, names: seq<string>, priorities: seq<int>, pos: nat, index: nat, e: Entry)
    requires |names| == |priorities| && pos <= |names| && e in Shown(kind, names, priorities, pos, index)
    ensures ShowsRight(kind, names, priorities, e) && pos <= e.pos && index <= e.index
    decreases |names| - pos
  {
    if pos == |names| {
    } else if names[pos] in DEFAULT_NAMES {
      ShownIsRight(kind, names, priorities, pos + 1, index, e);
    } else if e != Entry(kind, pos, index, priorities[pos]) {
      ShownIsRight(kind, names, priorities, pos + 1, index + 1, e);
    }
  }

  /** … all of them, … */
  lemma {:induction false} ShownAt(kind: Kind, names: seq<string>, priorities: seq<int>, pos: nat, index: nat, p: nat)
      returns (e: Entry)
    requires |names| == |priorities| && pos <= p < |names| && names[p] !in DEFAULT_NAMES
    ensures e in Shown(kind, names, priorities, pos, index)
    ensures e.kind == kind && e.pos == p && e.priority == priorities[p]
    decreases |names| - pos
  {
    if names[pos] in DEFAULT_NAMES {
      e := ShownAt(kind, names, priorities, pos + 1, index, p);
    } else if p == pos {
      e := Entry(kind, pos, index, priorities[pos]);
    } else {
      e := ShownAt(kind, names, priorities, pos + 1, index + 1, p);
    }
  }

  /** … each once, and `index` grows with `pos`. */
  lemma {:induction false} ShownInOrder(
      kind: Kind, names: seq<string>, priorities: seq<int>, pos: nat, index: nat, i: nat, j: nat)
    requires |names| == |priorities| && pos <= |names| && i < j < |Shown(kind, names, priorities, pos, index)|
    ensures var s := Shown(kind, names, priorities, pos, index); s[i].pos < s[j].pos && s[i].index < s[j].index
    decreases |names| - pos
  {
    hide ShowsRight;
    if names[pos] in DEFAULT_NAMES {
      ShownInOrder(kind, names, priorities, pos + 1, index, i, j);
    } else {
      var s, tail := Shown(kind, names, priorities, pos, index), Shown(kind, names, priorities, pos + 1, index + 1);
      assert s[j] == tail[j - 1] && tail[j - 1] in tail;
      if i == 0 {
        ShownIsRight(kind, names, priorities, pos + 1, index + 1, s[j]);
      } else {
        ShownInOrder(kind, names, priorities, pos + 1, index + 1, i - 1, j - 1);
      }
    }
  }

  /** The panel's comparator orders entries as the server's orders their keys. */
  ghost predicate Aligned(file: File, entries: set<Entry>) {
    && (forall a, b :: a in entries && b in entries && KeyOf(file, a) == KeyOf(file, b) ==> a == b)
    && (forall a, b :: a in entries && b in entries ==> (Above(a, b) <==> Before(KeyOf(file, a), KeyOf(file, b))))
  }

  ghost predicate ShowsItem(file: File, e: Entry) {
    if e.kind == RuleEntry then ShowsRight(RuleEntry, RuleNames(file.rules), RulePriorities(file.rules), e)
    else ShowsRight(ImportEntry, ImportNames(file.imports), ImportPriorities(file.imports), e)
  }

  /** `a` stands before `b` in the file. */
  ghost predicate Stands(file: File, a: Entry, b: Entry) {
    && KeyOf(file, a).index < KeyOf(file, b).index
    && (a.kind == b.kind ==> a.pos < b.pos && a.index < b.index)
    && (a.kind != b.kind ==> a.kind == RuleEntry)
  }

  function RuleEntries(file: File): seq<Entry> {
    Shown(RuleEntry, RuleNames(file.rules), RulePriorities(file.rules), 0, 0)
  }

  function ImportEntries(file: File): seq<Entry> {
    Shown(ImportEntry, ImportNames(file.imports), ImportPriorities(file.imports), 0, 0)
  }

  lemma PartShapes(file: File)
    ensures forall i :: 0 <= i < |RuleEntries(file)| ==>
              ShowsItem(file, RuleEntries(file)[i]) && RuleEntries(file)[i].kind == RuleEntry
    ensures forall i :: 0 <= i < |ImportEntries(file)| ==>
              ShowsItem(file, ImportEntries(file)[i]) && ImportEntries(file)[i].kind == ImportEntry
    ensures forall i, j :: 0 <= i < j < |RuleEntries(file)| ==> Stands(file, RuleEntries(file)[i], RuleEntries(file)[j])
    ensures forall i, j :: 0 <= i < j < |ImportEntries(file)| ==>
              Stands(file, ImportEntries(file)[i], ImportEntries(file)[j])
  {
    hide Shown, ShowsRight;
    var rs, ims := RuleEntries(file), ImportEntries(file);
    forall i | 0 <= i < |rs| ensures ShowsItem(file, rs[i]) && rs[i].kind == RuleEntry {
      ShownIsRight(RuleEntry, RuleNames(file.rules), RulePriorities(file.rules), 0, 0, rs[i]);
      RightKind(RuleEntry, RuleNames(file.rules), RulePriorities(file.rules), rs[i]);
    }
    forall i | 0 <= i < |ims| ensures ShowsItem(file, ims[i]) && ims[i].kind == ImportEntry {
      ShownIsRight(ImportEntry, ImportNames(file.imports), ImportPriorities(file.imports), 0, 0, ims[i]);
      RightKind(ImportEntry, ImportNames(file.imports), ImportPriorities(file.imports), ims[i]);
    }
    forall i, j | 0 <= i < j < |rs| ensures Stands(file, rs[i], rs[j]) {
      ShownInOrder(RuleEntry, RuleNames(file.rules), RulePriorities(file.rules), 0, 0, i, j);
    }
    forall i, j | 0 <= i < j < |ims| ensures Stands(file, ims[i], ims[j]) {
      ShownInOrder(ImportEntry, ImportNames(file.imports), ImportPriorities(file.imports), 0, 0, i, j);
    }
  }

  lemma RightKind(kind: Kind, names: seq<string>, priorities: seq<int>, e: Entry)
    requires |names| == |priorities| && ShowsRight(kind, names, priorities, e)
    ensures e.kind == kind
  {
  }

  lemma StandsInOrder(file: File)
    ensures forall i :: 0 <= i < |Entries(file)| ==> ShowsItem(file, Entries(file)[i])
    ensures forall i, j :: 0 <= i < j < |Entries(file)| ==> Stands(file, Entries(file)[i], Entries(file)[j])
  {
    hide Stands, ShowsItem;
    PartShapes(file);
    var rs, ims, all := RuleEntries(file), ImportEntries(file), Entries(file);
    forall i, j | 0 <= i < j < |all| ensures Stands(file, all[i], all[j]) {
      if i < |rs| <= j {
        AcrossKinds(file, rs[i], ims[j - |rs|]);
      }
    }
  }

  lemma AcrossKinds(file: File, a: Entry, b: Entry)
    requires a.kind == RuleEntry && b.kind == ImportEntry && ShowsItem(file, a)
    ensures Stands(file, a, b)
  {
  }

  lemma EntriesShape(file: File)
    ensures Aligned(file, Elements(Entries(file))) && Distinct(Entries(file))
    ensures forall e :: e in Entries(file) ==> ShowsItem(file, e)
    ensures forall a, b :: a in Entries(file) && b in Entries(file) && a.kind == b.kind && a.pos == b.pos ==> a == b
  {
    hide Entries, ShowsItem;
    StandsInOrder(file);
    var all := Entries(file);
    forall a, b | a in all && b in all && a != b ensures Stands(file, a, b) || Stands(file, b, a) {
      var i :| 0 <= i < |all| && all[i] == a;
      var j :| 0 <= j < |all| && all[j] == b;
      assert i < j || j < i;
    }
  }

  lemma KeysAreOrdered(file: File)
    ensures forall i :: 0 <= i < |Keys(file)| ==> Keys(file)[i].index == i
    ensures StrictTotal(Before, Elements(Keys(file))) && Distinct(Keys(file))
  {
    var keys := Keys(file);
    forall i | 0 <= i < |keys| ensures keys[i].index == i {
      if i < |file.rules| {
        assert keys[i] == RuleKey(file.rules[i], i);
      } else {
        assert keys[i] == ImportKey(file.imports[i - |file.rules|], i);
      }
    }
    forall a, b | a in Elements(keys) && b in Elements(keys) && a != b ensures a.index != b.index {
      assert keys[a.index] == a && keys[b.index] == b;
    }
    ComparatorIsStrictTotal(Elements(keys));
  }

  lemma EntriesAreOrdered(file: File)
    ensures StrictTotal(Above, Elements(Entries(file)))
  {
    EntriesShape(file);
  }

  lemma EntryBehind(file: File, i: nat) returns (e: Entry)
    requires i < |Keys(file)| && !Keys(file)[i].defaulted
    ensures e in Entries(file) && KeyOf(file, e) == Keys(file)[i]
  {
    hide Shown;
    if i < |file.rules| {
      e := ShownAt(RuleEntry, RuleNames(file.rules), RulePriorities(file.rules), 0, 0, i);
      assert e in RuleEntries(file);
    } else {
      assert Keys(file)[i] == ImportKey(file.imports[i - |file.rules|], i);
      e := ImportBehind(file, i - |file.rules|);
    }
  }

  lemma ImportBehind(file: File, p: nat) returns (e: Entry)
    requires p < |file.imports| && file.imports[p].name !in DEFAULT_NAMES
    ensures e in Entries(file) && KeyOf(file, e) == ImportKey(file.imports[p], |file.rules| + p)
  {
    hide Shown;
    e := ShownAt(ImportEntry, ImportNames(file.imports), ImportPriorities(file.imports), 0, 0, p);
    assert e in ImportEntries(file);
  }

  lemma KeyBehind(file: File, e: Entry)
    requires ShowsItem(file, e)
    ensures KeyOf(file, e) in Keys(file)
  {
    var i := KeyOf(file, e).index;
    if e.kind == RuleEntry {
      assert Keys(file)[i] == RuleKey(file.rules[e.pos], i);
    } else {
      assert Keys(file)[i] == ImportKey(file.imports[e.pos], i);
    }
    assert Keys(file)[i] == KeyOf(file, e);
  }

  /** The keys of the entries are those of the sources that are not defaults. */
  lemma SameKeys(file: File)
    ensures forall k :: k in Keys(file) && !k.defaulted <==> exists e :: e in Entries(file) && KeyOf(file, e) == k
  {
    hide Entries, ShowsItem, Keys;
    forall k | k in Keys(file) && !k.defaulted ensures exists e :: e in Entries(file) && KeyOf(file, e) == k {
      var i :| 0 <= i < |Keys(file)| && Keys(file)[i] == k;
      var e := EntryBehind(file, i);
    }
    EntriesShape(file);
    forall e | e in Entries(file) ensures KeyOf(file, e) in Keys(file) && !KeyOf(file, e).defaulted {
      KeyBehind(file, e);
    }
  }

  lemma SortedKeys(file: File, entries: seq<Entry>)
    requires Aligned(file, Elements(entries)) && Sorted(Above, entries)
    ensures Sorted(Before, KeysOf(file, entries))
  {
    var keys := KeysOf(file, entries);
    forall i, j | 0 <= i < j < |keys| ensures Before(keys[i], keys[j]) {
      assert entries[i] in Elements(entries) && entries[j] in Elements(entries);
    }
  }

  /** What the panel shows from top to bottom is the server's order of the custom sources. */
  lemma PanelOrderIsServerOrder(file: File)
    ensures KeysOf(file, CustomEntries(file)) == ServerOrder(file)
  {
    var entries, shown := Entries(file), CustomEntries(file);
    EntriesShape(file);
    EntriesAreOrdered(file);
    SortSorts(Above, entries);
    SortKeeps(Above, entries);
    SameElements(shown, entries);
    assert forall e :: e in shown <==> e in entries by {
      assert forall e :: e in shown <==> e in Elements(shown);
    }
    SortedKeys(file, shown);
    var keep := (k: Key) => !k.defaulted;
    KeysAreOrdered(file);
    SortSorts(Before, Keys(file));
    SortKeeps(Before, Keys(file));
    var server := SortBy(Before, Keys(file));
    SameElements(server, Keys(file));
    FilterSorted(Before, keep, server);
    FilterElements(keep, server);
    SameKeys(file);
    assert Elements(ServerOrder(file)) == Elements(KeysOf(file, shown)) by {
      forall k ensures k in ServerOrder(file) <==> k in KeysOf(file, shown) {
        assert k in ServerOrder(file) <==> k in server && !k.defaulted;
        assert k in server <==> k in Elements(server);
        KeyShown(file, shown, k);
      }
    }
    assert Elements(ServerOrder(file)) <= Elements(Keys(file));
    SortedUnique(Before, ServerOrder(file), KeysOf(file, shown));
  }

  lemma KeyShown(file: File, entries: seq<Entry>, k: Key)
    ensures k in KeysOf(file, entries) <==> exists e :: e in entries && KeyOf(file, e) == k
  {
    if k in KeysOf(file, entries) {
      var i :| 0 <= i < |entries| && KeysOf(file, entries)[i] == k;
      assert entries[i] in entries;
    }
    forall e | e in entries ensures KeyOf(file, e) in KeysOf(file, entries) {
      var i :| 0 <= i < |entries| && entries[i] == e;
      assert KeysOf(file, entries)[i] == KeyOf(file, e);
    }
  }

  // ---------------------------------------------------------------- moving an entry

  function SetPriority(file: File, e: Entry, priority: int): File {
    if e.kind == RuleEntry then
      if e.pos < |file.rules| then file.(rules := file.rules[e.pos := file.rules[e.pos].(priority := priority)])
          else file
    else
      if e.pos < |file.imports| then file.(imports := file.imports[e.pos := file.imports[e.pos].(priority := priority)])
          else file
  }

  function PriorityOf(file: File, kind: Kind, pos: nat): int {
    if kind == RuleEntry then
      if pos < |file.rules| then file.rules[pos].priority else 0
    else
      if pos < |file.imports| then file.imports[pos].priority else 0
  }

  /** The two files differ in priorities only. */
  ghost predicate SameItems(a: File, b: File) {
    && RuleNames(a.rules) == RuleNames(b.rules) && ImportNames(a.imports) == ImportNames(b.imports)
    && (forall i :: 0 <= i < |a.rules| && i < |b.rules| ==> a.rules[i].(priority := 0) == b.rules[i].(priority := 0))
    && (forall i :: 0 <= i < |a.imports| && i < |b.imports| ==>
        a.imports[i].(priority := 0) == b.imports[i].(priority := 0))
  }

  ghost predicate DistinctItems(entries: seq<Entry>) {
    forall i, j :: 0 <= i < j < |entries| ==> entries[i].kind != entries[j].kind || entries[i].pos != entries[j].pos
  }

  ghost predicate ShownIn(file: File, entries: seq<Entry>) {
    forall i :: 0 <= i < |entries| ==> ShowsItem(file, entries[i])
  }

  lemma SetPrioritySets(file: File, e: Entry, priority: int)
    requires ShowsItem(file, e)
    ensures SameItems(file, SetPriority(file, e, priority))
    ensures forall kind, pos :: PriorityOf(SetPriority(file, e, priority), kind, pos) ==
              if kind == e.kind && pos == e.pos then priority else PriorityOf(file, kind, pos)
  {
    var after := SetPriority(file, e, priority);
    assert |after.rules| == |file.rules| && |after.imports| == |file.imports|;
  }

  /** The entries with the priorities of another file of the same items. */
  ghost function Repriced(file: File, entries: seq<Entry>): seq<Entry> {
    seq(|entries|, i requires 0 <= i < |entries| =>
        entries[i].(priority := PriorityOf(file, entries[i].kind, entries[i].pos)))
  }

  lemma {:induction false} ShownRepriced(kind: Kind, names: seq<string>, old_: seq<int>, new_: seq<int>, pos: nat,
      index: nat)
    requires |names| == |old_| == |new_| && pos <= |names|
    ensures var a, b := Shown(kind, names, old_, pos, index), Shown(kind, names, new_, pos, index);
            |a| == |b| && forall i :: 0 <= i < |a| ==> a[i].pos < |names| && b[i] == a[i].(priority := new_[a[i].pos])
    decreases |names| - pos
  {
    if pos == |names| {
    } else {
      if names[pos] in DEFAULT_NAMES {
        ShownRepriced(kind, names, old_, new_, pos + 1, index);
      } else {
        ShownRepriced(kind, names, old_, new_, pos + 1, index + 1);
      }
    }
  }

  lemma RuleEntriesRepriced(file: File, after: File)
    requires SameItems(file, after)
    ensures RuleEntries(after) == Repriced(after, RuleEntries(file))
  {
    assert |RuleNames(after.rules)| == |file.rules| == |after.rules|;
    ShownRepriced(RuleEntry, RuleNames(file.rules), RulePriorities(file.rules), RulePriorities(after.rules), 0, 0);
    PartShapes(file);
  }

  lemma ImportEntriesRepriced(file: File, after: File)
    requires SameItems(file, after)
    ensures ImportEntries(after) == Repriced(after, ImportEntries(file))
  {
    assert |ImportNames(after.imports)| == |file.imports| == |after.imports|;
    ShownRepriced(ImportEntry, ImportNames(file.imports), ImportPriorities(file.imports),
        ImportPriorities(after.imports), 0, 0);
    PartShapes(file);
  }

  lemma EntriesRepriced(file: File, after: File)
    requires SameItems(file, after)
    ensures Entries(after) == Repriced(after, Entries(file))
  {
    hide SameItems, RuleEntries, ImportEntries, PriorityOf;
    RuleEntriesRepriced(file, after);
    ImportEntriesRepriced(file, after);
  }

  /** Numbering the entries 1, 2, 3, … in some order makes that order the panel's. */
  lemma NumberingGivesOrder(file: File, after: File, wanted: seq<Entry>)
    requires SameItems(file, after) && Elements(wanted) == Elements(Entries(file)) && |wanted| == |Entries(file)|
    requires forall i :: 0 <= i < |wanted| ==> PriorityOf(after, wanted[i].kind, wanted[i].pos) == i + 1
    ensures CustomEntries(after) == Repriced(after, wanted)
  {
    hide Entries, PriorityOf;
    EntriesRepriced(file, after);
    var list := Repriced(after, wanted);
    assert Sorted(Above, list);
    assert Elements(list) == Elements(Entries(after)) by {
      RepricedElements(after, wanted, Entries(file));
      RepricedElements(after, Entries(file), wanted);
    }
    EntriesShape(after);
    EntriesAreOrdered(after);
    SortSorts(Above, Entries(after));
    SortKeeps(Above, Entries(after));
    SameElements(CustomEntries(after), Entries(after));
    SortedUnique(Above, CustomEntries(after), list);
  }

  lemma RepricedElements(file: File, a: seq<Entry>, b: seq<Entry>)
    requires Elements(a) <= Elements(b)
    ensures Elements(Repriced(file, a)) <= Elements(Repriced(file, b))
  {
    forall e | e in Repriced(file, a) ensures e in Repriced(file, b) {
      var i :| 0 <= i < |a| && Repriced(file, a)[i] == e;
      assert a[i] in Elements(b);
      var j :| 0 <= j < |b| && b[j] == a[i];
      assert Repriced(file, b)[j] == e;
    }
  }

  function Swapped<T>(s: seq<T>, i: nat, j: nat): seq<T>
    requires i < |s| && j < |s|
  {
    s[i := s[j]][j := s[i]]
  }

  /** The positions in the file, in the server's order. */
  ghost function ServerIndexes(file: File): seq<nat> {
    var order := ServerOrder(file);
    seq(|order|, i requires 0 <= i < |order| => order[i].index)
  }

  lemma ServerIndexesOf(file: File, i: nat)
    requires i < |CustomEntries(file)|
    ensures |ServerIndexes(file)| == |CustomEntries(file)| &&
              ServerIndexes(file)[i] == KeyOf(file, CustomEntries(file)[i]).index
  {
    PanelOrderIsServerOrder(file);
    assert KeysOf(file, CustomEntries(file))[i] == KeyOf(file, CustomEntries(file)[i]);
  }

  lemma CustomEntriesShape(file: File)
    ensures Elements(CustomEntries(file)) == Elements(Entries(file)) && |CustomEntries(file)| == |Entries(file)|
    ensures ShownIn(file, CustomEntries(file)) && DistinctItems(CustomEntries(file))
  {
    var list := CustomEntries(file);
    EntriesShape(file);
    EntriesAreOrdered(file);
    SortSorts(Above, Entries(file));
    SortKeeps(Above, Entries(file));
    SameElements(list, Entries(file));
    forall i | 0 <= i < |list| ensures list[i] in Entries(file) {
      assert list[i] in Elements(list);
    }
    forall i, j | 0 <= i < j < |list| ensures list[i] != list[j] {
      assert Above(list[i], list[j]);
      assert !Above(list[i], list[i]);
    }
  }

  class RulesPage {
    var file: File

    /** reindexEntries. */
    method ReindexEntries(entries: seq<Entry>)
      requires ShownIn(file, entries) && DistinctItems(entries)
      modifies this
      ensures SameItems(old(file), file)
      ensures forall i :: 0 <= i < |entries| ==> PriorityOf(file, entries[i].kind, entries[i].pos) == i + 1
      ensures forall kind, pos ::
                (forall i :: 0 <= i < |entries| ==> entries[i].kind != kind || entries[i].pos != pos) ==>
                PriorityOf(file, kind, pos) == PriorityOf(old(file), kind, pos)
    {
      hide PriorityOf, SetPriority, SameItems, ShowsItem;
      SameItemsTransitive(file, file, file);
      for n := 0 to |entries|
        invariant SameItems(old(file), file)
        invariant forall i :: 0 <= i < n ==> PriorityOf(file, entries[i].kind, entries[i].pos) == i + 1
        invariant forall kind, pos ::
                    (forall i :: 0 <= i < |entries| ==> entries[i].kind != kind || entries[i].pos != pos) ==>
                    PriorityOf(file, kind, pos) == PriorityOf(old(file), kind, pos)
      {
        var e := entries[n];
        ItemStays(old(file), file, e);
        var now := e.(priority := PriorityOf(file, e.kind, e.pos));
        SetPrioritySets(file, now, n + 1);
        SameItemsTransitive(old(file), file, SetPriority(file, now, n + 1));
        file := SetPriority(file, now, n + 1);
      }
    }

    /** moveEntry: the server's order changes by exactly that swap, or not at all. */
    method MoveEntry(index: nat, offset: int)
      requires index < |CustomEntries(file)| && (offset == 1 || offset == -1)
      modifies this
      ensures SameItems(old(file), file)
      ensures |old(ServerIndexes(file))| == |old(CustomEntries(file))|
      ensures if 0 <= index + offset < |old(CustomEntries(file))|
              then ServerIndexes(file) == Swapped(old(ServerIndexes(file)), index, index + offset)
              else file == old(file)
    {
      hide CustomEntries, ServerIndexes, Swapped, SameItems, ShowsItem, PriorityOf;
      var entries := CustomEntries(file);
      var target := index + offset;
      ServerIndexesOf(file, index);
      SameItemsTransitive(file, file, file);
      if target < 0 || target >= |entries| {
        return;
      }
      var current := entries[index];
      var moved := entries[index := entries[target]];
      moved := moved[target := current];
      CustomEntriesShape(file);
      SwapKeepsElements(entries, index, target);
      assert moved == Swapped(entries, index, target) by { SwapIs(entries, index, target); }
      ReindexEntries(moved);
      MovedOrder(old(file), file, index, target);
    }
  }

  lemma SwapIs<T>(s: seq<T>, i: nat, j: nat)
    requires i < |s| && j < |s|
    ensures s[i := s[j]][j := s[i]] == Swapped(s, i, j) && |Swapped(s, i, j)| == |s|
  {
  }

  lemma MovedOrder(before: File, after: File, i: nat, j: nat)
    requires SameItems(before, after) && i < |CustomEntries(before)| && j < |CustomEntries(before)| && i != j
    requires var moved := Swapped(CustomEntries(before), i, j);
             forall k :: 0 <= k < |moved| ==> PriorityOf(after, moved[k].kind, moved[k].pos) == k + 1
    ensures |ServerIndexes(before)| == |CustomEntries(before)|
    ensures ServerIndexes(after) == Swapped(ServerIndexes(before), i, j)
  {
    hide CustomEntries, ServerIndexes, PriorityOf;
    var list := CustomEntries(before);
    var moved := Swapped(list, i, j);
    CustomEntriesShape(before);
    SwapKeepsElements(list, i, j);
    NumberingGivesOrder(before, after, moved);
    assert |before.rules| == |RuleNames(before.rules)| == |after.rules|;
    forall k | 0 <= k < |list|
      ensures |ServerIndexes(after)| == |ServerIndexes(before)| == |list|
      ensures ServerIndexes(before)[k] == KeyOf(before, list[k]).index &&
                ServerIndexes(after)[k] == KeyOf(before, moved[k]).index
    {
      ServerIndexesOf(before, k);
      ServerIndexesOf(after, k);
    }
    assert |ServerIndexes(after)| == |list| by { ServerIndexesOf(after, i); ServerIndexesOf(before, i); }
  }

  lemma SameItemsTransitive(a: File, b: File, c: File)
    ensures SameItems(a, a)
    ensures SameItems(a, b) && SameItems(b, c) ==> SameItems(a, c)
  {
    if SameItems(a, b) {
      assert |RuleNames(a.rules)| == |RuleNames(b.rules)| && |ImportNames(a.imports)| == |ImportNames(b.imports)|;
    }
  }

  lemma ItemStays(before: File, now: File, e: Entry)
    requires SameItems(before, now) && ShowsItem(before, e)
    ensures ShowsItem(now, e.(priority := PriorityOf(now, e.kind, e.pos)))
  {
    assert |RuleNames(before.rules)| == |RuleNames(now.rules)| &&
        |ImportNames(before.imports)| == |ImportNames(now.imports)|;
  }

  lemma SwapKeepsElements(s: seq<Entry>, i: nat, j: nat)
    requires i < |s| && j < |s| && i != j
    ensures Elements(Swapped(s, i, j)) == Elements(s)
    ensures DistinctItems(s) ==> DistinctItems(Swapped(s, i, j))
    ensures forall k :: 0 <= k < |s| ==> Swapped(s, i, j)[k] in s
  {
    var t := Swapped(s, i, j);
    assert t[i] == s[j] && t[j] == s[i];
    forall x | x in s ensures x in t {
      var k :| 0 <= k < |s| && s[k] == x;
      if k != i && k != j {
        assert t[k] == x;
      }
    }
  }
}
