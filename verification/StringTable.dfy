// A list of strings in an arena, searched by name, and the loop that fills it with disambiguated names
// (src/arena.rs, src/symbols.rs).
module StringTables {
  import opened Alignment
  import opened Options
  import opened Bytes
  import opened Arenas
  import opened Names

  // Where a string is (an empty one may be nowhere), and its id.
  datatype StringRef = StringRef(s: Option<Block>, id: nat)

  // partition_point of the names less than s: the length of the prefix of such names.
  function PartitionPoint(names: seq<Name>, s: Name): (i: nat)
    ensures i <= |names|
    ensures forall k :: 0 <= k < i ==> Less(names[k], s)
    ensures i < |names| ==> !Less(names[i], s)
  {
    if names != [] && Less(names[0], s) then 1 + PartitionPoint(names[1..], s) else 0
  }

  ghost predicate RefsLive(strings: seq<StringRef>, live: set<Block>) {
    forall i :: 0 <= i < |strings| ==> strings[i].s.Some? ==> strings[i].s.value in live
  }

  ghost predicate RefsIn(chunks: seq<Chunk>, strings: seq<StringRef>) {
    forall i :: 0 <= i < |strings| ==> strings[i].s.Some? ==> InChunks(chunks, strings[i].s.value)
  }

  function Text(chunks: seq<Chunk>, r: StringRef): Name
    requires r.s.Some? ==> InChunks(chunks, r.s.value)
  {
    match r.s
    case None => []
    case Some(b) => chunks[b.chunk].data[b.start..b.start + b.size]
  }

  function Texts(chunks: seq<Chunk>, strings: seq<StringRef>): (names: seq<Name>)
    requires RefsIn(chunks, strings)
    ensures |names| == |strings|
  {
    seq(|strings|, i requires 0 <= i < |strings| => Text(chunks, strings[i]))
  }

  // One more string: what was there is unchanged.
  lemma {:induction false} TextsGrow(chunks: seq<Chunk>, strings: seq<StringRef>, live: set<Block>,
                                     chunks': seq<Chunk>, r: StringRef)
    requires RefsIn(chunks, strings) && RefsLive(strings, live) && Kept(chunks, live, chunks')
    requires r.s.Some? ==> InChunks(chunks', r.s.value)
    ensures RefsIn(chunks', strings + [r])
    ensures Texts(chunks', strings + [r]) == Texts(chunks, strings) + [Text(chunks', r)]
  {
  }

  class StringTable {
    const arena: Arena
    var strings: seq<StringRef>

    ghost predicate Valid()
      reads this, arena
    {
      arena.Valid() && RefsLive(strings, arena.live) && RefsIn(arena.chunks, strings)
    }

    constructor ()
      ensures Valid() && fresh(arena) && Contents() == [] && strings == []
    {
      arena := new Arena();
      strings := [];
    }

    function Contents(): (names: seq<Name>)
      requires Valid()
      reads this, arena
      ensures |names| == |strings|
    {
      Texts(arena.chunks, strings)
    }

    // add_slice
    method AddSlice(s: Name, id: nat)
      requires Valid()
      modifies this, arena
      ensures Valid() && Contents() == old(Contents()) + [s]
      ensures |strings| == |old(strings)| + 1 && strings[..|old(strings)|] == old(strings) &&
          strings[|old(strings)|].id == id
    {
      hide InChunks, Texts, Aligned, Apart;
      ghost var chunks, live := arena.chunks, arena.live;
      var b := arena.AddSlice(s, 1);
      Push(chunks, live, Some(b), id, s);
    }

    // The reference to a string just added to the arena.
    method Push(ghost chunks: seq<Chunk>, ghost live: set<Block>, b: Option<Block>, id: nat, ghost s: Name)
      requires arena.Valid() && Kept(chunks, live, arena.chunks) && live <= arena.live
      requires RefsLive(strings, live) && RefsIn(chunks, strings)
      requires if b.Some? then b.value in arena.live && arena.Bytes(b.value) == s else s == []
      modifies this`strings
      ensures Valid() && Contents() == Texts(chunks, old(strings)) + [s]
      ensures strings == old(strings) + [StringRef(b, id)]
    {
      hide Texts, Aligned, Apart;
      var r := StringRef(b, id);
      TextsGrow(chunks, strings, live, arena.chunks, r);
      strings := strings + [r];
    }

    // disambiguate: the name as it is for the first of its group, else with a suffix.
    method Disambiguate(s: Name, idx: nat, count: nat, id: nat)
      requires Valid() && idx < count
      modifies this, arena
      ensures Valid() && Contents() == old(Contents()) + [Suffixed(s, idx, count)]
      ensures |strings| == |old(strings)| + 1 && strings[..|old(strings)|] == old(strings) &&
          strings[|old(strings)|].id == id
    {
      hide InChunks, Texts, Aligned, Apart, Staged, Padded, SuffixDigits;
      if idx == 0 {
        AddSlice(s, id);
        assert Suffixed(s, 0, count) == s;
        return;
      }
      ghost var chunks, live := arena.chunks, arena.live;
      var out := new ArenaWrite(arena);
      out.Write(s);
      out.Write([HASH]);
      out.Write(Padded(idx + 1, SuffixDigits(count)));
      assert out.written == Suffixed(s, idx, count);
      var b := out.Finish();
      Push(chunks, live, b, id, Suffixed(s, idx, count));
    }

    // binary_search
    method BinarySearch(s: Name) returns (id: Option<nat>)
      requires Valid() && StrictlySorted(Contents())
      ensures id.Some? ==> exists i :: 0 <= i < |strings| && Contents()[i] == s && strings[i].id == id.value
      ensures id.None? ==> s !in Contents()
    {
      var names := Contents();
      var i := PartitionPoint(names, s);
      if i < |strings| && names[i] == s {
        return Some(strings[i].id);
      }
      forall k | 0 <= k < |names| ensures names[k] != s {
        LessIrreflexive(s);
        if i < k {
          LessTotal(names[i], s);
          if Less(s, names[i]) {
            LessTransitive(s, names[i], names[k]);
          }
        }
      }
      id := None;
    }
  }

  datatype Entry = Entry(name: Name, id: nat)

  function NamesOf(entries: seq<Entry>): (names: seq<Name>)
    ensures |names| == |entries|
  {
    seq(|entries|, i requires 0 <= i < |entries| => entries[i].name)
  }

  method GroupEnd(entries: seq<Entry>, start: nat) returns (end: nat)
    requires start < |entries|
    ensures start < end <= |entries| && forall k :: start <= k < end ==> entries[k].name == entries[start].name
    ensures end < |entries| ==> entries[end].name != entries[start].name
  {
    end := start + 1;
    while end < |entries| && entries[end].name == entries[start].name
      invariant start < end <= |entries|
      invariant forall k :: start <= k < end ==> entries[k].name == entries[start].name
    {
      end := end + 1;
    }
  }

  // The loop over groups of equal names: every entry gets its disambiguated name and keeps its id.
  method FillTable(entries: seq<Entry>) returns (table: StringTable)
    ensures fresh(table) && fresh(table.arena) && table.Valid()
    ensures table.Contents() == Disambiguated(NamesOf(entries)) && |table.strings| == |entries|
    ensures forall i :: 0 <= i < |entries| ==> table.strings[i].id == entries[i].id
  {
    hide Filled, Disambiguated;
    table := NewTable(entries);
    ghost var names := NamesOf(entries);
    var start := 0;
    while start < |entries|
      invariant start <= |entries| && fresh(table) && fresh(table.arena)
      invariant Filled(table, entries, start)
      invariant 0 < start < |entries| ==> names[start - 1] != names[start]
      decreases |entries| - start
    {
      var end := GroupEnd(entries, start);
      FillGroup(table, entries, start, end);
      start := end;
    }
    FilledAll(table, entries);
  }

  method FillGroup(table: StringTable, entries: seq<Entry>, start: nat, end: nat)
    requires start < end <= |entries| && Filled(table, entries, start)
    requires forall k :: start <= k < end ==> entries[k].name == entries[start].name
    requires start > 0 ==> entries[start - 1].name != entries[start].name
    requires end < |entries| ==> entries[end].name != entries[start].name
    modifies table, table.arena
    ensures Filled(table, entries, end)
  {
    hide Filled, First, End;
    for i := start to end
      invariant Filled(table, entries, i)
    {
      GroupIs(NamesOf(entries), start, end, i);
      FillOne(table, entries, i, start, end);
    }
  }

  method FillOne(table: StringTable, entries: seq<Entry>, i: nat, start: nat, end: nat)
    requires start <= i < end <= |entries| && Filled(table, entries, i)
    requires First(NamesOf(entries), i) == start && End(NamesOf(entries), i) == end
    modifies table, table.arena
    ensures Filled(table, entries, i + 1)
  {
    hide StringTable.Valid, StringTable.Contents, Disambiguated, Suffixed, First, End;
    ghost var names := NamesOf(entries);
    NextName(names, i);
    assert FinalName(names, i) == Suffixed(entries[i].name, i - start, end - start);
    table.Disambiguate(entries[i].name, i - start, end - start, entries[i].id);
  }

  method NewTable(ghost entries: seq<Entry>) returns (table: StringTable)
    ensures fresh(table) && fresh(table.arena) && Filled(table, entries, 0)
  {
    table := new StringTable();
  }

  lemma FilledAll(table: StringTable, entries: seq<Entry>)
    requires Filled(table, entries, |entries|)
    ensures table.Valid() && table.Contents() == Disambiguated(NamesOf(entries)) && |table.strings| == |entries|
    ensures forall i :: 0 <= i < |entries| ==> table.strings[i].id == entries[i].id
  {
  }

  ghost predicate Filled(table: StringTable, entries: seq<Entry>, n: nat)
    requires n <= |entries|
    reads table, table.arena
  {
    && table.Valid() && |table.strings| == n && table.Contents() == Disambiguated(NamesOf(entries))[..n]
    && forall i :: 0 <= i < n ==> table.strings[i].id == entries[i].id
  }

  lemma NextName(names: seq<Name>, i: nat)
    requires i < |names|
    ensures Disambiguated(names)[..i + 1] == Disambiguated(names)[..i] + [FinalName(names, i)]
  {
  }

  lemma GroupIs(names: seq<Name>, start: nat, end: nat, i: nat)
    requires start <= i < end <= |names| && forall k :: start <= k < end ==> names[k] == names[start]
    requires start > 0 ==> names[start - 1] != names[start]
    requires end < |names| ==> names[end] != names[start]
    ensures First(names, i) == start && End(names, i) == end
  {
    FirstIs(names, start, i);
    EndIs(names, end, i);
  }

  lemma {:induction false} FirstIs(names: seq<Name>, start: nat, i: nat)
    requires start <= i < |names| && forall k :: start <= k <= i ==> names[k] == names[start]
    requires start > 0 ==> names[start - 1] != names[start]
    ensures First(names, i) == start
  {
    if i > start {
      FirstIs(names, start, i - 1);
    }
  }

  lemma {:induction false} EndIs(names: seq<Name>, end: nat, i: nat)
    requires i < end <= |names| && forall k :: i <= k < end ==> names[k] == names[i]
    requires end < |names| ==> names[end] != names[i]
    ensures End(names, i) == end
    decreases end - i
  {
    if i + 1 < end {
      EndIs(names, end, i + 1);
    }
  }

  lemma OnePosition(names: seq<Name>, i: nat, j: nat)
    requires StrictlySorted(names) && i < |names| && j < |names| && names[i] == names[j]
    ensures i == j
  {
    LessIrreflexive(names[i]);
  }

  // A sorted list without clashes: the table finds the id of every name it gave out, and nothing else.
  method FindsExactly(entries: seq<Entry>, s: Name) returns (id: Option<nat>)
    requires SortedNames(NamesOf(entries)) && NoClash(NamesOf(entries))
    ensures
      var final := Disambiguated(NamesOf(entries));
      && (forall i :: 0 <= i < |entries| && final[i] == s ==> id == Some(entries[i].id))
      && (s !in final ==> id == None)
  {
    var table := FillTable(entries);
    ghost var final := Disambiguated(NamesOf(entries));
    DisambiguatedSortedIff(NamesOf(entries));
    id := table.BinarySearch(s);
    forall i | 0 <= i < |entries| && final[i] == s ensures id == Some(entries[i].id) {
      if id.Some? {
        var j :| 0 <= j < |entries| && final[j] == s && table.strings[j].id == id.value;
        OnePosition(final, i, j);
      }
    }
  }
}
