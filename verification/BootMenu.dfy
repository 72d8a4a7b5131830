/** Signed boot menus: parsing them, choosing the default entry, and writing them back. */
module BootMenu {
  import opened Results
  import opened Text
  import opened Json
  import opened Documents

  datatype Entry = Entry(
    entryId: string,
    title: string,
    bootReleaseSetId: string,
    releaseSetRef: string,
    bootMode: string,
    role: string,
    isDefault: bool,
    rollbackEligible: bool)

  datatype Menu = Menu(menuId: string, defaultEntryId: string, entries: seq<Entry>)

  predicate KnownRole(role: string) {
    role == "normal" || role == "rollback" || KnownMode(role)
  }

  /** A boolean field that defaults to false when absent. */
  function BoolOrFalse(fields: seq<Field>, key: string): Result<bool> {
    match Get(fields, key)
    case None => Ok(false)
    case Some(Bool(b)) => Ok(b)
    case _ => Err(NotABoolean(key))
  }

  function EntryFromDict(item: Value): Result<Entry> {
    var _ :- Check(item.Obj?, NotAnObject);
    var fields := item.fields;
    var entryId :- RequireString(fields, "entry_id");
    var title :- RequireString(fields, "label");
    var bootReleaseSetId :- RequireString(fields, "boot_release_set_id");
    var releaseSetRef :- RequireString(fields, "release_set_ref");
    var bootMode :- RequireString(fields, "boot_mode");
    var _ :- Check(KnownMode(bootMode), UnsupportedMode);
    var role :- RequireString(fields, "role");
    var _ :- Check(KnownRole(role), UnsupportedRole);
    var isDefault :- BoolOrFalse(fields, "default");
    var rollbackEligible :- BoolOrFalse(fields, "rollback_eligible");
    var _ :- Check(role == "rollback" ==> rollbackEligible, NotRollbackEligible);
    Ok(Entry(entryId, title, bootReleaseSetId, releaseSetRef, bootMode, role, isDefault, rollbackEligible))
  }

  function Ids(entries: seq<Entry>): set<string> {
    set i | 0 <= i < |entries| :: entries[i].entryId
  }

  type EntryParser = Value -> Result<Entry>

  /** The remaining items, after `entries` have been accepted. */
  function CollectEntries(parse: EntryParser, items: seq<Value>, entries: seq<Entry>): Result<seq<Entry>>
    decreases items
  {
    if items == [] then Ok(entries)
    else
      var entry :- parse(items[0]);
      var _ :- Check(entry.entryId !in Ids(entries), DuplicateEntry);
      CollectEntries(parse, items[1..], entries + [entry])
  }

  function MarkedDefaults(entries: seq<Entry>): seq<string> {
    if entries == [] then []
    else (if entries[0].isDefault then [entries[0].entryId] else []) + MarkedDefaults(entries[1..])
  }

  function EntryItems(fields: seq<Field>): Result<seq<Value>> {
    match Get(fields, "entries")
    case Some(Arr(items)) => if items == [] then Err(NoEntries) else Ok(items)
    case _ => Err(NoEntries)
  }

  function CheckDefaults(menu: Menu): Result<Menu> {
    var _ :- Check(menu.defaultEntryId in Ids(menu.entries), UnknownDefault);
    var marked := MarkedDefaults(menu.entries);
    var _ :- Check(|marked| <= 1, ManyDefaults);
    var _ :- Check(marked == [] || marked[0] == menu.defaultEntryId, WrongDefault);
    Ok(menu)
  }

  function MenuFromDict(fields: seq<Field>): Result<Menu> {
    var menuId :- RequireString(fields, "menu_id");
    var defaultEntryId :- RequireString(fields, "default_entry_id");
    var items :- EntryItems(fields);
    var entries :- CollectEntries(EntryFromDict, items, []);
    CheckDefaults(Menu(menuId, defaultEntryId, entries))
  }

  /** The parse as Python runs it, growing a list of entries and a set of seen ids. */
  method ParseMenu(fields: seq<Field>) returns (r: Result<Menu>)
    ensures r == MenuFromDict(fields)
  {
    var menuId := RequireString(fields, "menu_id");
    if menuId.Err? {
      return Err(menuId.reason);
    }
    var defaultEntryId := RequireString(fields, "default_entry_id");
    if defaultEntryId.Err? {
      return Err(defaultEntryId.reason);
    }
    var items := EntryItems(fields);
    if items.Err? {
      return Err(items.reason);
    }
    var entries: seq<Entry> := [];
    var seen: set<string> := {};
    for i := 0 to |items.value|
      invariant seen == Ids(entries)
      invariant CollectEntries(EntryFromDict, items.value[i..], entries) == CollectEntries(EntryFromDict, items.value, [])
    {
      assert items.value[i..][1..] == items.value[i + 1..];
      var entry := EntryFromDict(items.value[i]);
      if entry.Err? {
        return Err(entry.reason);
      }
      if entry.value.entryId in seen {
        return Err(DuplicateEntry);
      }
      IdsAppend(entries, entry.value);
      seen := seen + {entry.value.entryId};
      entries := entries + [entry.value];
    }
    return CheckDefaults(Menu(menuId.value, defaultEntryId.value, entries));
  }

  lemma IdsAppend(entries: seq<Entry>, entry: Entry)
    ensures Ids(entries + [entry]) == Ids(entries) + {entry.entryId}
  {
    var all := entries + [entry];
    forall id | id in Ids(entries) + {entry.entryId} ensures id in Ids(all) {
      if id in Ids(entries) {
        var i :| 0 <= i < |entries| && entries[i].entryId == id;
        assert all[i].entryId == id;
      } else {
        assert all[|entries|].entryId == id;
      }
    }
  }

  function FirstWithId(entries: seq<Entry>, entryId: string): Result<Entry> {
    if entries == [] then Err(MissingDefault)
    else if entries[0].entryId == entryId then Ok(entries[0])
    else FirstWithId(entries[1..], entryId)
  }

  function DefaultEntry(menu: Menu): Result<Entry> {
    FirstWithId(menu.entries, menu.defaultEntryId)
  }

  /** The scan as Python runs it, returning early. */
  method FindDefaultEntry(menu: Menu) returns (r: Result<Entry>)
    ensures r == DefaultEntry(menu)
  {
    for i := 0 to |menu.entries|
      invariant FirstWithId(menu.entries[i..], menu.defaultEntryId) == DefaultEntry(menu)
    {
      assert menu.entries[i..][1..] == menu.entries[i + 1..];
      if menu.entries[i].entryId == menu.defaultEntryId {
        return Ok(menu.entries[i]);
      }
    }
    return Err(MissingDefault);
  }

  /** The default entry boots the release, release set and mode of the manifest that carries the menu. */
  function ValidateForManifest(menu: Menu, bootReleaseSetId: string, baseReleaseSetRef: string, bootMode: string): Result<()> {
    var entry :- DefaultEntry(menu);
    var _ :- Check(entry.bootReleaseSetId == bootReleaseSetId && entry.releaseSetRef == baseReleaseSetRef
             && entry.bootMode == bootMode, MenuMismatch);
    Ok(())
  }

  // ----- which menus are accepted -----

  /** A boolean the document may leave out, and then it is false. */
  predicate SaysFlag(fields: seq<Field>, key: string, b: bool) {
    Get(fields, key) == Some(Bool(b)) || (Get(fields, key).None? && !b)
  }

  lemma KnownRoles(role: string)
    ensures KnownRole(role) <==> role in {"normal", "rollback", "installer", "recovery", "ephemeral", "bootstrap"}
  {
  }

  /** An entry is exactly what its item says, and the item is well formed. */
  lemma EntryReadsIff(fields: seq<Field>, e: Entry)
    ensures EntryFromDict(Obj(fields)) == Ok(e) <==>
      && RequireString(fields, "entry_id") == Ok(e.entryId) && RequireString(fields, "label") == Ok(e.title)
      && RequireString(fields, "boot_release_set_id") == Ok(e.bootReleaseSetId)
      && RequireString(fields, "release_set_ref") == Ok(e.releaseSetRef)
      && RequireString(fields, "boot_mode") == Ok(e.bootMode) && KnownMode(e.bootMode)
      && RequireString(fields, "role") == Ok(e.role) && KnownRole(e.role)
      && SaysFlag(fields, "default", e.isDefault) && SaysFlag(fields, "rollback_eligible", e.rollbackEligible)
      && (e.role == "rollback" ==> e.rollbackEligible)
  {
  }

  lemma EntryItemsIff(fields: seq<Field>, items: seq<Value>)
    ensures EntryItems(fields) == Ok(items) <==> Get(fields, "entries") == Some(Arr(items)) && items != []
  {
  }

  /** Every item parses, into these entries in this order. */
  predicate ItemsAre(parse: EntryParser, items: seq<Value>, entries: seq<Entry>) {
    |items| == |entries| && forall i | 0 <= i < |items| :: parse(items[i]) == Ok(entries[i])
  }

  predicate DistinctIds(entries: seq<Entry>) {
    forall i, j | 0 <= i < j < |entries| :: entries[i].entryId != entries[j].entryId
  }

  /** Non-empty, no id twice, the default among them, and no entry marked default except that one. */
  predicate SoundMenu(menu: Menu) {
    && menu.entries != []
    && DistinctIds(menu.entries)
    && (exists i | 0 <= i < |menu.entries| :: menu.entries[i].entryId == menu.defaultEntryId)
    && forall i | 0 <= i < |menu.entries| && menu.entries[i].isDefault :: menu.entries[i].entryId == menu.defaultEntryId
  }

  lemma {:induction false} CollectAcceptsIff(parse: EntryParser, items: seq<Value>, entries: seq<Entry>, all: seq<Entry>)
    requires DistinctIds(entries)
    ensures CollectEntries(parse, items, entries) == Ok(all)
      <==> entries <= all && ItemsAre(parse, items, all[|entries|..]) && DistinctIds(all)
    decreases items
  {
    var n := |entries|;
    if items == [] {
      assert entries <= all && |all| == n ==> all == entries;
      if CollectEntries(parse, items, entries) == Ok(all) {
        assert all[n..] == [];
      }
    } else {
      var first := parse(items[0]);
      if first.Ok? && first.value.entryId !in Ids(entries) {
        var more := entries + [first.value];
        assert DistinctIds(more);
        CollectAcceptsIff(parse, items[1..], more, all);
        if more <= all {
          assert all[n..] == [first.value] + all[n + 1..];
          assert forall i | 1 <= i < |items| :: items[i] == items[1..][i - 1];
          assert ItemsAre(parse, items, all[n..]) <==> ItemsAre(parse, items[1..], all[n + 1..]);
        }
      }
    }
  }

  lemma {:induction false} MarkedAre(entries: seq<Entry>)
    ensures forall id :: id in MarkedDefaults(entries) <==> exists i | 0 <= i < |entries| :: entries[i].isDefault && entries[i].entryId == id
    ensures MarkedDefaults(entries) == [] <==> forall i | 0 <= i < |entries| :: !entries[i].isDefault
  {
    if entries != [] {
      var rest := entries[1..];
      MarkedAre(rest);
      forall id | id in MarkedDefaults(rest)
        ensures exists i | 0 <= i < |entries| :: entries[i].isDefault && entries[i].entryId == id
      {
        var i :| 0 <= i < |rest| && rest[i].isDefault && rest[i].entryId == id;
        assert entries[i + 1] == rest[i];
      }
      forall i | 0 <= i < |entries| && entries[i].isDefault ensures entries[i].entryId in MarkedDefaults(entries) {
        if i > 0 {
          assert rest[i - 1] == entries[i];
        }
      }
    }
  }

  lemma {:induction false} AtMostOneMarked(entries: seq<Entry>, id: string)
    requires DistinctIds(entries) && forall i | 0 <= i < |entries| && entries[i].isDefault :: entries[i].entryId == id
    ensures |MarkedDefaults(entries)| <= 1
  {
    if entries != [] {
      var rest := entries[1..];
      AtMostOneMarked(rest, id);
      MarkedAre(rest);
    }
  }

  lemma DefaultsCheckedIff(menu: Menu)
    requires menu.entries != [] && DistinctIds(menu.entries)
    ensures CheckDefaults(menu).Ok? <==> SoundMenu(menu)
  {
    var marked := MarkedDefaults(menu.entries);
    MarkedAre(menu.entries);
    if SoundMenu(menu) {
      AtMostOneMarked(menu.entries, menu.defaultEntryId);
      assert marked != [] ==> marked[0] in marked;
    }
    if CheckDefaults(menu).Ok? {
      forall i | 0 <= i < |menu.entries| && menu.entries[i].isDefault
        ensures menu.entries[i].entryId == menu.defaultEntryId
      {
        assert menu.entries[i].entryId in marked;
      }
    }
  }

  /** Sound and complete: a document is accepted as a menu exactly when it spells out a sound menu. */
  lemma MenuAcceptedIff(fields: seq<Field>, menu: Menu)
    ensures MenuFromDict(fields) == Ok(menu) <==>
      && RequireString(fields, "menu_id") == Ok(menu.menuId)
      && RequireString(fields, "default_entry_id") == Ok(menu.defaultEntryId)
      && EntryItems(fields).Ok? && ItemsAre(EntryFromDict, EntryItems(fields).value, menu.entries)
      && SoundMenu(menu)
  {
    var items := EntryItems(fields);
    if items.Ok? {
      CollectAcceptsIff(EntryFromDict, items.value, [], menu.entries);
      assert menu.entries[0..] == menu.entries;
      var collected := CollectEntries(EntryFromDict, items.value, []);
      if collected.Ok? {
        CollectAcceptsIff(EntryFromDict, items.value, [], collected.value);
        assert collected.value[0..] == collected.value;
      }
      if collected == Ok(menu.entries) {
        DefaultsCheckedIff(menu);
      }
    }
  }

  /** In a sound menu the scan always finds the default, and it is the only entry with that id. */
  lemma {:induction false} DefaultIsUnique(menu: Menu)
    requires SoundMenu(menu)
    ensures DefaultEntry(menu).Ok? && DefaultEntry(menu).value.entryId == menu.defaultEntryId
    ensures forall i | 0 <= i < |menu.entries| && menu.entries[i].entryId == menu.defaultEntryId ::
              menu.entries[i] == DefaultEntry(menu).value
  {
    var i :| 0 <= i < |menu.entries| && menu.entries[i].entryId == menu.defaultEntryId;
    FirstAt(menu.entries, i);
  }

  /** The scan stops at the first entry with the id. */
  lemma {:induction false} FirstAt(entries: seq<Entry>, i: nat)
    requires i < |entries| && forall j | 0 <= j < i :: entries[j].entryId != entries[i].entryId
    ensures FirstWithId(entries, entries[i].entryId) == Ok(entries[i])
  {
    if i > 0 {
      assert entries[0].entryId != entries[i].entryId;
      FirstAt(entries[1..], i - 1);
    }
  }

  lemma {:induction false} NoneWithId(entries: seq<Entry>, id: string)
    ensures FirstWithId(entries, id) == Err(MissingDefault) <==> forall i | 0 <= i < |entries| :: entries[i].entryId != id
  {
    if entries != [] {
      NoneWithId(entries[1..], id);
      assert forall i | 1 <= i < |entries| :: entries[i] == entries[1..][i - 1];
      if FirstWithId(entries, id).Ok? && entries[0].entryId != id {
        assert exists i | 1 <= i < |entries| :: entries[i].entryId == id;
      }
    }
  }

  /** A sound menu fits a manifest exactly when its default entry boots that release, release set and mode. */
  lemma MenuFitsIff(menu: Menu, bootReleaseSetId: string, baseReleaseSetRef: string, bootMode: string)
    requires SoundMenu(menu)
    ensures ValidateForManifest(menu, bootReleaseSetId, baseReleaseSetRef, bootMode).Ok? <==>
      exists e | e in menu.entries ::
        && e.entryId == menu.defaultEntryId && e.bootReleaseSetId == bootReleaseSetId
        && e.releaseSetRef == baseReleaseSetRef && e.bootMode == bootMode
  {
    DefaultIsUnique(menu);
    var i :| 0 <= i < |menu.entries| && menu.entries[i].entryId == menu.defaultEntryId;
    assert menu.entries[i] in menu.entries;
  }

  // ----- writing menus back -----

  function EntryToDict(entry: Entry): Value {
    Obj([Field("entry_id", Str(entry.entryId)), Field("label", Str(entry.title)),
         Field("boot_release_set_id", Str(entry.bootReleaseSetId)), Field("release_set_ref", Str(entry.releaseSetRef)),
         Field("boot_mode", Str(entry.bootMode)), Field("role", Str(entry.role)),
         Field("default", Bool(entry.isDefault)), Field("rollback_eligible", Bool(entry.rollbackEligible))])
  }

  function EntryDicts(entries: seq<Entry>): (r: seq<Value>)
    ensures |r| == |entries| && forall i | 0 <= i < |r| :: r[i] == EntryToDict(entries[i])
  {
    if entries == [] then [] else [EntryToDict(entries[0])] + EntryDicts(entries[1..])
  }

  function MenuToDict(menu: Menu): seq<Field> {
    [Field("menu_id", Str(menu.menuId)), Field("default_entry_id", Str(menu.defaultEntryId)),
     Field("entries", Arr(EntryDicts(menu.entries)))]
  }

  predicate WellFormedEntry(entry: Entry) {
    && !PythonBlank(entry.entryId) && !PythonBlank(entry.title) && !PythonBlank(entry.bootReleaseSetId)
    && !PythonBlank(entry.releaseSetRef) && !PythonBlank(entry.bootMode) && !PythonBlank(entry.role)
    && KnownMode(entry.bootMode) && KnownRole(entry.role)
    && (entry.role == "rollback" ==> entry.rollbackEligible)
  }

  lemma EntryFields(entry: Entry)
    ensures var fields := EntryToDict(entry).fields;
      && Get(fields, "entry_id") == Some(Str(entry.entryId)) && Get(fields, "label") == Some(Str(entry.title))
      && Get(fields, "boot_release_set_id") == Some(Str(entry.bootReleaseSetId))
      && Get(fields, "release_set_ref") == Some(Str(entry.releaseSetRef))
      && Get(fields, "boot_mode") == Some(Str(entry.bootMode)) && Get(fields, "role") == Some(Str(entry.role))
      && Get(fields, "default") == Some(Bool(entry.isDefault))
      && Get(fields, "rollback_eligible") == Some(Bool(entry.rollbackEligible))
  {
    var fields := EntryToDict(entry).fields;
    assert |fields[0].key| == 8 && |fields[1].key| == 5 && |fields[2].key| == 19 && |fields[3].key| == 15;
    assert |fields[4].key| == 9 && |fields[5].key| == 4 && |fields[6].key| == 7 && |fields[7].key| == 17;
    GetAll(fields);
  }

  lemma EntryRoundTrip(entry: Entry)
    ensures EntryFromDict(EntryToDict(entry)) == Ok(entry) <==> WellFormedEntry(entry)
  {
    EntryFields(entry);
  }

  lemma ParsedEntryWellFormed(item: Value)
    requires EntryFromDict(item).Ok?
    ensures WellFormedEntry(EntryFromDict(item).value)
  {
  }

  lemma MenuFields(menu: Menu)
    ensures var written := MenuToDict(menu);
      && Get(written, "menu_id") == Some(Str(menu.menuId)) && Get(written, "default_entry_id") == Some(Str(menu.defaultEntryId))
      && Get(written, "entries") == Some(Arr(EntryDicts(menu.entries)))
  {
    var written := MenuToDict(menu);
    assert |written[0].key| == 7 && |written[1].key| == 16 && written[2].key[0] != written[0].key[0] && |written[2].key| == 7;
    GetAll(written);
  }

  /** A parsed menu, written out and parsed again, is the same menu. */
  lemma MenuRoundTrip(fields: seq<Field>)
    requires MenuFromDict(fields).Ok?
    ensures MenuFromDict(MenuToDict(MenuFromDict(fields).value)) == MenuFromDict(fields)
  {
    var menu := MenuFromDict(fields).value;
    MenuAcceptedIff(fields, menu);
    var written := MenuToDict(menu);
    MenuFields(menu);
    var items := EntryItems(fields).value;
    forall i | 0 <= i < |menu.entries| ensures EntryFromDict(EntryDicts(menu.entries)[i]) == Ok(menu.entries[i]) {
      ParsedEntryWellFormed(items[i]);
      EntryRoundTrip(menu.entries[i]);
    }
    MenuAcceptedIff(written, menu);
  }
}
