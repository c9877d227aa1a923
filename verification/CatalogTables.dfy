/** The table set of a catalog schema: listed once, and each table's metadata fetched when it is asked for. */
module CatalogTables {
  import opened Basics
  import opened DeleteSets

  /** A catalog entry; it is filled when its storage location is known, and never changed in place. */
  class TableEntry {
    const name: string
    const storageLocation: string

    constructor (name: string, storageLocation: string)
      ensures this.name == name && this.storageLocation == storageLocation
    {
      this.name, this.storageLocation := name, storageLocation;
    }
  }

  /** The first of some names under each folded key, as `insert` keeps it. */
  function FirstNames(names: seq<string>): map<string, string> {
    if names == [] then map[]
    else
      var m, last := FirstNames(names[..|names| - 1]), names[|names| - 1];
      if Fold(last) in m then m else m[Fold(last) := last]
  }

  /** A name is found exactly when one equal to it but for case is listed, and then the first such is. */
  lemma {:induction false} FirstNamesIff(names: seq<string>, name: string)
    ensures Fold(name) in FirstNames(names) <==> exists i :: 0 <= i < |names| && SameText(names[i], name)
    ensures forall i | 0 <= i < |names| && SameText(names[i], name) && (forall j | 0 <= j < i :: !SameText(names[j], name)) ::
              FirstNames(names)[Fold(name)] == names[i]
  {
    hide Fold, SameText;
    if names != [] {
      var before, last := names[..|names| - 1], names[|names| - 1];
      FirstNamesIff(before, name);
      FoldEqualIff(last, name);
      assert forall i | 0 <= i < |before| :: before[i] == names[i];
    }
  }

  /** The names CreateEntry accepts before it throws on an empty one. */
  function UpToEmpty(names: seq<string>): seq<string> {
    if names == [] || names[0] == "" then [] else [names[0]] + UpToEmpty(names[1..])
  }

  /** What a table set maps: an entry per folded name. */
  type Entries = map<string, TableEntry>

  /** Filled entries of `before` are still mapped, to the same objects. */
  ghost predicate KeepsFilled(before: Entries, after: Entries) {
    forall k | k in before && before[k].storageLocation != "" :: k in after && after[k] == before[k]
  }

  /** Every entry of `before` is still mapped, to the same object. */
  ghost predicate KeepsMapped(before: Entries, after: Entries) {
    forall k | k in before :: k in after && after[k] == before[k]
  }

  class TableSet {
    var entries: Entries

    ghost function Names(): map<string, string>
      reads this
    {
      map k | k in entries :: entries[k].name
    }

    constructor ()
      ensures entries == map[]
    {
      entries := map[];
    }

    /** `entries.insert`: an entry whose key is taken already is not mapped. An empty name throws. */
    method CreateEntry(entry: TableEntry) returns (ok: bool)
      modifies this
      ensures ok <==> entry.name != ""
      ensures !ok ==> entries == old(entries)
      ensures ok ==> KeepsMapped(old(entries), entries) && entries.Keys == old(entries).Keys + {Fold(entry.name)}
      ensures ok && Fold(entry.name) !in old(entries) ==> entries[Fold(entry.name)] == entry
      ensures ok ==> Names() == if Fold(entry.name) in old(Names()) then old(Names())
                                else old(Names())[Fold(entry.name) := entry.name]
    {
      if entry.name == "" {
        return false;
      }
      if Fold(entry.name) !in entries {
        entries := entries[Fold(entry.name) := entry];
      }
      ok := true;
    }

    /** Lists the tables if the set is empty; `listing` is what the catalog replies. */
    method LoadEntries(listing: seq<string>) returns (ok: bool)
      modifies this
      ensures old(entries) != map[] ==> ok && entries == old(entries)
      ensures old(entries) == map[] ==>
                && (ok <==> "" !in listing)
                && Names() == FirstNames(UpToEmpty(listing))
                && forall k | k in entries :: entries[k].storageLocation == "" && fresh(entries[k])
    {
      if entries != map[] {
        return true;
      }
      assert Names() == map[];
      for i := 0 to |listing|
        invariant "" !in listing[..i]
        invariant UpToEmpty(listing) == listing[..i] + UpToEmpty(listing[i..])
        invariant Names() == FirstNames(listing[..i])
        invariant forall k | k in entries :: entries[k].storageLocation == "" && fresh(entries[k])
      {
        hide FirstNames, UpToEmpty, Fold, TableSet.Names;
        UpToEmptyStep(listing, i);
        FirstNamesStep(listing, i);
        var entry := new TableEntry(listing[i], "");
        ok := CreateEntry(entry);
        if !ok {
          return;
        }
      }
      assert listing[..|listing|] == listing;
      ConcatNil(listing);
      ok := true;
    }

    /** `location` is the metadata location the catalog replies for the table, if it is asked. */
    method GetEntry(name: string, listing: seq<string>, location: string) returns (ok: bool, entry: TableEntry?)
      modifies this
      ensures KeepsFilled(old(entries), entries)
      ensures forall k | k in entries :: (k in old(entries) && entries[k] == old(entries)[k]) || fresh(entries[k])
      ensures ok <==> old(entries) != map[] || "" !in listing
      ensures ok ==> (entry == null <==> Fold(name) !in (if old(entries) == map[] then FirstNames(listing) else old(Names())))
      ensures ok && entry != null ==> Fold(name) in entries && entries[Fold(name)] == entry
      ensures ok && entry != null && Fold(name) in old(entries) && old(entries)[Fold(name)].storageLocation != "" ==>
                entry == old(entries)[Fold(name)] && entries == old(entries)
      ensures ok && entry != null && (Fold(name) !in old(entries) || old(entries)[Fold(name)].storageLocation == "") ==>
                entry.storageLocation == location && fresh(entry)
      ensures old(entries) != map[] ==> entries - {Fold(name)} == old(entries) - {Fold(name)}
      ensures Names() == if old(entries) == map[] then FirstNames(UpToEmpty(listing)) else old(Names())
      ensures ok && entry != null ==> entry.name == Names()[Fold(name)]
    {
      hide Fold, FirstNames, UpToEmpty;
      entry := null;
      ok := LoadEntries(listing);
      if !ok {
        return;
      }
      NoEmptyName(listing);
      if Fold(name) !in entries {
        return;
      }
      entry := entries[Fold(name)];
      if entry.storageLocation != "" {
        return;
      }
      entry := new TableEntry(entry.name, location);
      entries := entries[Fold(name) := entry];
    }

    method Scan(listing: seq<string>) returns (ok: bool, visited: set<TableEntry>)
      modifies this
      ensures KeepsFilled(old(entries), entries)
      ensures forall k | k in entries :: (k in old(entries) && entries[k] == old(entries)[k]) || fresh(entries[k])
      ensures ok <==> old(entries) != map[] || "" !in listing
      ensures ok ==> visited == entries.Values
    {
      ok := LoadEntries(listing);
      visited := entries.Values;
    }

    method DropEntry(name: string)
      modifies this
      ensures entries == old(entries) - {Fold(name)}
      ensures forall k | k in old(entries) && k != Fold(name) :: k in entries && entries[k] == old(entries)[k]
    {
      entries := entries - {Fold(name)};
    }

    method ClearEntries()
      modifies this
      ensures entries == map[]
    {
      entries := map[];
    }
  }

  lemma UpToEmptyStep(listing: seq<string>, i: nat)
    requires i < |listing| && "" !in listing[..i] && UpToEmpty(listing) == listing[..i] + UpToEmpty(listing[i..])
    ensures listing[i] == "" ==> UpToEmpty(listing) == listing[..i]
    ensures listing[i] != "" ==>
              "" !in listing[..i + 1] && UpToEmpty(listing) == listing[..i + 1] + UpToEmpty(listing[i + 1..])
  {
    TakeSnoc(listing, i);
    assert listing[i..][0] == listing[i] && listing[i..][1..] == listing[i + 1..];
    ConcatNil(listing[..i]);
    ConcatAssoc(listing[..i], [listing[i]], UpToEmpty(listing[i + 1..]));
  }

  lemma FirstNamesStep(listing: seq<string>, i: nat)
    requires i < |listing|
    ensures var m := FirstNames(listing[..i]);
            FirstNames(listing[..i + 1]) == if Fold(listing[i]) in m then m else m[Fold(listing[i]) := listing[i]]
  {
    assert listing[..i + 1][..i] == listing[..i];
  }

  lemma {:induction false} NoEmptyName(names: seq<string>)
    ensures "" !in names ==> UpToEmpty(names) == names
  {
    if names != [] {
      NoEmptyName(names[1..]);
      assert "" !in names ==> names == [names[0]] + names[1..];
    }
  }

  // ----- runs of calls ---------------------------------------------------------------------------------

  /** A call on a table set, with what the catalog replies to it. */
  datatype Call =
    | GetEntry(name: string, listing: seq<string>, location: string)
    | Scan(listing: seq<string>)
    | DropEntry(name: string)
    | ClearEntries

  /** The calls that take the entry under `key` away. */
  predicate Loses(call: Call, key: string) {
    call.ClearEntries? || (call.DropEntry? && Fold(call.name) == key)
  }

  /** The calls that take the table of that name away. */
  predicate TakesAway(call: Call, name: string) {
    call.ClearEntries? || (call.DropEntry? && SameText(call.name, name))
  }

  lemma LosesIff(calls: seq<Call>, name: string)
    ensures (forall i | 0 <= i < |calls| :: !Loses(calls[i], Fold(name))) <==>
            (forall i | 0 <= i < |calls| :: !TakesAway(calls[i], name))
  {
    hide Fold, SameText;
    forall i | 0 <= i < |calls| ensures Loses(calls[i], Fold(name)) <==> TakesAway(calls[i], name) {
      if calls[i].DropEntry? {
        FoldEqualIff(calls[i].name, name);
      }
    }
  }

  /** A run of calls. A filled entry stays mapped to its name, the same object, exactly as long as no
      call of the run is a ClearEntries or a DropEntry of that name. */
  method RunCalls(tables: TableSet, calls: seq<Call>)
    modifies tables
    ensures forall k | k in old(tables.entries) && old(tables.entries)[k].storageLocation != "" ::
              (k in tables.entries && tables.entries[k] == old(tables.entries)[k]) <==>
              forall i | 0 <= i < |calls| :: !Loses(calls[i], k)
    ensures forall k | k in tables.entries ::
              (k in old(tables.entries) && tables.entries[k] == old(tables.entries)[k]) || fresh(tables.entries[k])
  {
    for i := 0 to |calls|
      invariant forall k | k in old(tables.entries) && old(tables.entries)[k].storageLocation != "" ::
                  (k in tables.entries && tables.entries[k] == old(tables.entries)[k]) <==>
                  forall j | 0 <= j < i :: !Loses(calls[j], k)
      invariant forall k | k in tables.entries ::
                  (k in old(tables.entries) && tables.entries[k] == old(tables.entries)[k]) || fresh(tables.entries[k])
    {
      match calls[i] {
        case GetEntry(name, listing, location) =>
          var ok, entry := tables.GetEntry(name, listing, location);
        case Scan(listing) =>
          var ok, visited := tables.Scan(listing);
        case DropEntry(name) =>
          tables.DropEntry(name);
        case ClearEntries =>
          tables.ClearEntries();
      }
    }
  }

  /** What GetEntry returned filled, a later GetEntry of that name returns again, the same object, exactly
      when no call in between took it away; whatever else was listed, filled, scanned or dropped. */
  method GetTwice(tables: TableSet, name: string, listing: seq<string>, location: string, calls: seq<Call>,
                  again: string, listing': seq<string>, location': string)
    returns (first: TableEntry?, second: TableEntry?)
    requires SameText(again, name)
    modifies tables
    ensures first != null && first.storageLocation != "" ==>
              (second == first <==> forall i | 0 <= i < |calls| :: !TakesAway(calls[i], name))
  {
    FoldEqualIff(again, name);
    LosesIff(calls, name);
    hide Fold, SameText;
    var ok;
    ok, first := tables.GetEntry(name, listing, location);
    if !ok {
      first := null;
    }
    RunCalls(tables, calls);
    ok, second := tables.GetEntry(again, listing', location');
    if !ok {
      second := null;
    }
  }
}
