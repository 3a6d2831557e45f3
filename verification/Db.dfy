/** The muDB client over an ordered key-value store. */
module Db {
  import opened Ids
  import opened KeyRange
  import opened Keys

  type Value = Blob
  type Data = map<Blob, Value>

  const SCAN_LIMIT := 10000

  function Get(data: Data, k: Blob): Option<Value> {
    if k in data then Some(data[k]) else None
  }

  function KeysIn(data: Data, r: BoundRange): set<Blob> {
    set k | k in data && InRange(r, k)
  }

  function Without(data: Data, r: BoundRange): Data {
    map k | k in data && !InRange(r, k) :: data[k]
  }

  function Min(a: nat, b: nat): nat {
    if a < b then a else b
  }

  ghost predicate WellFormedStore(data: Data) {
    forall k <- data :: WellFormed(k)
  }

  // ---- The tables a store stands for ----

  /** The registered tables of a stack. */
  function Registered(data: Data, id: StackID): set<TableName> {
    set k | k in data && DecodeTableListKey(k).Ok? && DecodeTableListKey(k).value.stackId == id ::
      DecodeTableListKey(k).value.tableName
  }

  function EntryKey(id: StackID, table: TableName): Blob {
    EncodeTableListKey(TableListKey(id, table))
  }

  lemma {:induction false} RegisteredIffEntry(data: Data, id: StackID, table: TableName)
    ensures table in Registered(data, id) <==> EntryKey(id, table) in data
  {
    TableListKeyRoundTrip(TableListKey(id, table), []);
    if table in Registered(data, id) {
      var k :| k in data && DecodeTableListKey(k).Ok? && DecodeTableListKey(k).value == TableListKey(id, table);
      TableListKeyRoundTrip(TableListKey(id, table), k);
    }
  }

  /** One cell of one table. */
  function Row(data: Data, k: Key): Option<Value> {
    Get(data, EncodeKey(k))
  }

  lemma {:induction false} KeysDistinct(k: Key, l: TableListKey)
    ensures EncodeKey(k) != EncodeTableListKey(l)
    ensures TablePrefix(k.stackId, k.tableName) <= EncodeKey(k)
  {
    KeyRoundTrip(k, []);
    TableListKeyRoundTrip(l, []);
    FirstByte(EncodeKey(k));
    FirstByte(EncodeTableListKey(l));
    PrefixOfKey(k.stackId, k.tableName, EncodeKey(k));
  }

  // ---- What an update of a stack's tables does ----

  function AddRequests(actions: seq<(TableName, bool)>): set<TableName> {
    set a | a in actions && !a.1 :: a.0
  }

  function DeleteRequests(actions: seq<(TableName, bool)>): set<TableName> {
    set a | a in actions && a.1 :: a.0
  }

  predicate IsEntryOf(id: StackID, tables: set<TableName>, k: Blob) {
    exists t <- tables :: k == EntryKey(id, t)
  }

  predicate IsRowOf(id: StackID, tables: set<TableName>, k: Blob) {
    exists t <- tables :: TablePrefix(id, t) <= k
  }

  /** Key by key: new entries are added empty, deleted tables lose their entry and every row, and nothing
      else changes. */
  ghost predicate TablesUpdated(
    before: Data, after: Data, id: StackID, toAdd: set<TableName>, toDelete: set<TableName>)
  {
    forall k: Blob ::
      Get(after, k) ==
      if IsEntryOf(id, toAdd, k) then Some([])
      else if IsEntryOf(id, toDelete, k) || IsRowOf(id, toDelete, k) then None
      else Get(before, k)
  }

  lemma {:induction false} EntryMembership(id: StackID, tables: set<TableName>, l: TableListKey)
    ensures IsEntryOf(id, tables, EncodeTableListKey(l)) <==> l.stackId == id && l.tableName in tables
    ensures !IsRowOf(id, tables, EncodeTableListKey(l))
  {
    TableListKeyRoundTrip(l, []);
    forall t: TableName
      ensures EntryKey(id, t) == EncodeTableListKey(l) ==> TableListKey(id, t) == l
      ensures !(TablePrefix(id, t) <= EncodeTableListKey(l))
    {
      TableListKeyRoundTrip(TableListKey(id, t), []);
      PrefixOfKey(id, t, EncodeTableListKey(l));
      FirstByte(EncodeTableListKey(l));
    }
    if l.stackId == id && l.tableName in tables {
      assert EncodeTableListKey(l) == EntryKey(id, l.tableName);
    }
  }

  lemma {:induction false} RowMembership(id: StackID, tables: set<TableName>, k: Key)
    ensures IsRowOf(id, tables, EncodeKey(k)) <==> k.stackId == id && k.tableName in tables
    ensures !IsEntryOf(id, tables, EncodeKey(k))
  {
    KeyRoundTrip(k, []);
    forall t: TableName
      ensures TablePrefix(id, t) <= EncodeKey(k) <==> k.stackId == id && k.tableName == t
      ensures EntryKey(id, t) != EncodeKey(k)
    {
      PrefixOfKey(id, t, EncodeKey(k));
      KeysDistinct(k, TableListKey(id, t));
    }
  }

  lemma {:induction false} RegisteredAfter(
    before: Data, after: Data, id: StackID, toAdd: set<TableName>, toDelete: set<TableName>, s: StackID, t: TableName)
    requires TablesUpdated(before, after, id, toAdd, toDelete)
    ensures t in Registered(after, s) <==>
      if s == id && t in toAdd then true else if s == id && t in toDelete then false else t in Registered(before, s)
  {
    RegisteredIffEntry(before, s, t);
    RegisteredIffEntry(after, s, t);
    EntryMembership(id, toAdd, TableListKey(s, t));
    EntryMembership(id, toDelete, TableListKey(s, t));
    assert Get(after, EntryKey(s, t)).Some? <==> EntryKey(s, t) in after;
  }

  /** In terms of tables: the stack ends up with its old tables minus the deleted ones plus the added ones,
      deleted tables are empty, and no cell of any other table and no table of any other stack changes. */
  lemma {:induction false} UpdateMeansTables(
    before: Data, after: Data, id: StackID, toAdd: set<TableName>, toDelete: set<TableName>, other: StackID)
    requires TablesUpdated(before, after, id, toAdd, toDelete)
    requires toAdd !! toDelete
    ensures Registered(after, id) == Registered(before, id) - toDelete + toAdd
    ensures other != id ==> Registered(after, other) == Registered(before, other)
    ensures forall k: Key ::
      Row(after, k) == if k.stackId == id && k.tableName in toDelete then None else Row(before, k)
  {
    forall t: TableName
      ensures t in Registered(after, id) <==> t in Registered(before, id) - toDelete + toAdd
    {
      RegisteredAfter(before, after, id, toAdd, toDelete, id, t);
    }
    forall t: TableName
      ensures other != id ==> (t in Registered(after, other) <==> t in Registered(before, other))
    {
      RegisteredAfter(before, after, id, toAdd, toDelete, other, t);
    }
    forall k: Key
      ensures Row(after, k) == if k.stackId == id && k.tableName in toDelete then None else Row(before, k)
    {
      RowMembership(id, toAdd, k);
      RowMembership(id, toDelete, k);
    }
  }

  /** An update stores no key the system does not know. */
  lemma {:induction false} StoreStaysWellFormed(
    before: Data, after: Data, id: StackID, toAdd: set<TableName>, toDelete: set<TableName>)
    requires WellFormedStore(before) && TablesUpdated(before, after, id, toAdd, toDelete)
    ensures WellFormedStore(after)
  {
    forall k | k in after
      ensures WellFormed(k)
    {
      assert Get(after, k).Some?;
      if IsEntryOf(id, toAdd, k) {
        var t :| t in toAdd && k == EntryKey(id, t);
        TableListKeyRoundTrip(TableListKey(id, t), k);
      } else {
        assert Get(before, k).Some?;
      }
    }
  }

  /** With the source's choice of what to add and delete, the stack ends up with "existing plus added, minus
      deleted" tables exactly when no table is asked to be both added and deleted without existing; validation
      rules that out by demanding unique table names. */
  lemma {:induction false} PlusAddedMinusDeleted(
    before: Data, after: Data, id: StackID, actions: seq<(TableName, bool)>)
    requires
      var existing := Registered(before, id);
      TablesUpdated(before, after, id, AddRequests(actions) - existing, DeleteRequests(actions) * existing)
    ensures
      var existing, adds, deletes := Registered(before, id), AddRequests(actions), DeleteRequests(actions);
      Registered(after, id) == (existing + adds) - deletes <==> adds * deletes <= existing
  {
    var existing, adds, deletes := Registered(before, id), AddRequests(actions), DeleteRequests(actions);
    UpdateMeansTables(before, after, id, adds - existing, deletes * existing, id);
    var wanted := (existing + adds) - deletes;
    if Registered(after, id) == wanted {
      forall t | t in adds * deletes
        ensures t in existing
      {
        assert t in Registered(after, id) <==> t in wanted;
      }
    }
  }

  // ---- An update that fails half way ----

  /** Key by key, at most a part of the update happened. */
  ghost predicate PartlyUpdated(
    before: Data, after: Data, id: StackID, toAdd: set<TableName>, toDelete: set<TableName>)
  {
    forall k: Blob ::
      || Get(after, k) == Get(before, k)
      || (IsEntryOf(id, toAdd, k) && Get(after, k) == Some([]))
      || ((IsEntryOf(id, toDelete, k) || IsRowOf(id, toDelete, k)) && Get(after, k) == None)
  }

  /** A table to delete keeps its entry until its rows are gone. */
  ghost predicate NoOrphans(data: Data, id: StackID, toDelete: set<TableName>) {
    forall t <- toDelete, k <- data :: TablePrefix(id, t) <= k ==> EntryKey(id, t) in data
  }

  lemma {:induction false} EntryOf(id: StackID, tables: set<TableName>, k: Blob)
    ensures IsEntryOf(id, tables, k) ==> exists t: TableName :: t in tables && k == EntryKey(id, t)
    ensures forall t: TableName :: k == EntryKey(id, t) ==> (IsEntryOf(id, tables, k) <==> t in tables)
    ensures forall t: TableName, other: set<TableName> :: k == EntryKey(id, t) ==> !IsRowOf(id, other, k)
  {
    forall t: TableName | k == EntryKey(id, t)
      ensures IsEntryOf(id, tables, k) <==> t in tables
      ensures forall other: set<TableName> :: !IsRowOf(id, other, k)
    {
      EntryMembership(id, tables, TableListKey(id, t));
      forall other: set<TableName>
        ensures !IsRowOf(id, other, k)
      {
        EntryMembership(id, other, TableListKey(id, t));
      }
    }
  }

  /** What the source adds and deletes when it sees all tables of the stack. */
  function ToAdd(data: Data, id: StackID, actions: seq<(TableName, bool)>): set<TableName> {
    AddRequests(actions) - Registered(data, id)
  }

  function ToDelete(data: Data, id: StackID, actions: seq<(TableName, bool)>): set<TableName> {
    DeleteRequests(actions) * Registered(data, id)
  }

  ghost predicate Updates(before: Data, after: Data, id: StackID, actions: seq<(TableName, bool)>) {
    TablesUpdated(before, after, id, ToAdd(before, id, actions), ToDelete(before, id, actions))
  }

  /** The update failed half way. */
  ghost predicate Fails(before: Data, after: Data, id: StackID, actions: seq<(TableName, bool)>) {
    && PartlyUpdated(before, after, id, ToAdd(before, id, actions), ToDelete(before, id, actions))
    && NoOrphans(after, id, ToDelete(before, id, actions))
  }

  /** The update failed half way, was sent again, and succeeded. */
  ghost predicate Retried(before: Data, mid: Data, after: Data, id: StackID, actions: seq<(TableName, bool)>) {
    Fails(before, mid, id, actions) && Updates(mid, after, id, actions)
  }

  /** A successful retry after every possible failure gives what one success would have given if and only if no
      table is asked to be both added and deleted. */
  lemma {:induction false} RetryCompletesIff(before: Data, id: StackID, actions: seq<(TableName, bool)>)
    ensures
      (forall mid: Data, after: Data ::
        Retried(before, mid, after, id, actions) ==> Updates(before, after, id, actions))
      <==> AddRequests(actions) !! DeleteRequests(actions)
  {
    if AddRequests(actions) !! DeleteRequests(actions) {
      forall mid: Data, after: Data | Retried(before, mid, after, id, actions)
        ensures Updates(before, after, id, actions)
      {
        RetryCompletes(before, mid, after, id, actions);
      }
    } else {
      var t :| t in AddRequests(actions) && t in DeleteRequests(actions);
      var mid, after := RetryGoesWrong(before, id, actions, t);
    }
  }

  /** Carries out an update on a value. */
  function Updated(data: Data, id: StackID, toAdd: set<TableName>, toDelete: set<TableName>): Data {
    (map k | k in data && !IsEntryOf(id, toDelete, k) && !IsRowOf(id, toDelete, k) :: data[k])
    + (map t | t in toAdd :: EntryKey(id, t) := [])
  }

  lemma {:induction false} UpdatedIsUpdate(data: Data, id: StackID, toAdd: set<TableName>, toDelete: set<TableName>)
    ensures TablesUpdated(data, Updated(data, id, toAdd, toDelete), id, toAdd, toDelete)
  {
  }

  /** A failure after which the retry goes wrong. A table that was missing has just been registered, so the retry
      deletes it; a table that existed has just been deleted, so the retry registers it again. */
  lemma {:induction false} RetryGoesWrong(before: Data, id: StackID, actions: seq<(TableName, bool)>, t: TableName)
    returns (mid: Data, after: Data)
    requires t in AddRequests(actions) && t in DeleteRequests(actions)
    ensures Retried(before, mid, after, id, actions) && !Updates(before, after, id, actions)
    ensures t in Registered(after, id) <==> t in Registered(before, id)
  {
    if t in Registered(before, id) {
      mid := Updated(before, id, {}, {t});
      UpdatedIsUpdate(before, id, {}, {t});
      DeletedFirst(before, mid, id, actions, t);
      RegisteredAfter(before, mid, id, {}, {t}, id, t);
    } else {
      mid := before[EntryKey(id, t) := []];
      AddedFirst(before, mid, id, actions, t);
      RegisteredIffEntry(mid, id, t);
    }
    var toAdd, toDelete := ToAdd(mid, id, actions), ToDelete(mid, id, actions);
    after := Updated(mid, id, toAdd, toDelete);
    UpdatedIsUpdate(mid, id, toAdd, toDelete);
    RegisteredAfter(mid, after, id, toAdd, toDelete, id, t);
    if Updates(before, after, id, actions) {
      RegisteredAfter(before, after, id, ToAdd(before, id, actions), ToDelete(before, id, actions), id, t);
    }
  }

  lemma {:induction false} DeletedFirst(
    before: Data, mid: Data, id: StackID, actions: seq<(TableName, bool)>, t: TableName)
    requires t in ToDelete(before, id, actions) && TablesUpdated(before, mid, id, {}, {t})
    ensures Fails(before, mid, id, actions)
  {
    var toAdd, toDelete := ToAdd(before, id, actions), ToDelete(before, id, actions);
    forall k: Blob
      ensures
        || Get(mid, k) == Get(before, k)
        || ((IsEntryOf(id, toDelete, k) || IsRowOf(id, toDelete, k)) && Get(mid, k) == None)
    {
      assert !IsEntryOf(id, {}, k);
    }
    forall u, k | u in toDelete && k in mid && TablePrefix(id, u) <= k
      ensures EntryKey(id, u) in mid
    {
      assert Get(mid, k).Some?;
      if u == t {
        assert IsRowOf(id, {t}, k);
      } else {
        RegisteredIffEntry(before, id, u);
        EntryOf(id, {t}, EntryKey(id, u));
        assert !IsEntryOf(id, {}, EntryKey(id, u));
        assert Get(mid, EntryKey(id, u)) == Get(before, EntryKey(id, u));
      }
    }
  }

  lemma {:induction false} AddedFirst(
    before: Data, mid: Data, id: StackID, actions: seq<(TableName, bool)>, t: TableName)
    requires t in ToAdd(before, id, actions) && mid == before[EntryKey(id, t) := []]
    ensures Fails(before, mid, id, actions)
  {
    forall u | u in ToDelete(before, id, actions)
      ensures EntryKey(id, u) in mid
    {
      RegisteredIffEntry(before, id, u);
    }
  }

  /** However an update failed, sending it again completes it, as long as no table is both added and deleted. */
  lemma {:induction false} RetryCompletes(
    before: Data, mid: Data, after: Data, id: StackID, actions: seq<(TableName, bool)>)
    requires AddRequests(actions) !! DeleteRequests(actions) && Retried(before, mid, after, id, actions)
    ensures Updates(before, after, id, actions)
  {
    var toAdd, toDelete := ToAdd(before, id, actions), ToDelete(before, id, actions);
    forall k: Blob
      ensures Get(after, k) == if IsEntryOf(id, toAdd, k) then Some([])
        else if IsEntryOf(id, toDelete, k) || IsRowOf(id, toDelete, k) then None
        else Get(before, k)
    {
      if t: TableName :| k == EntryKey(id, t) {
        RetriedEntry(before, mid, after, id, actions, t);
      } else {
        RetriedOther(before, mid, after, id, actions, k);
      }
    }
  }

  lemma {:induction false} RetriedEntry(
    before: Data, mid: Data, after: Data, id: StackID, actions: seq<(TableName, bool)>, t: TableName)
    requires AddRequests(actions) !! DeleteRequests(actions) && Retried(before, mid, after, id, actions)
    ensures
      var k, toAdd, toDelete := EntryKey(id, t), ToAdd(before, id, actions), ToDelete(before, id, actions);
      Get(after, k) == if IsEntryOf(id, toAdd, k) then Some([])
        else if IsEntryOf(id, toDelete, k) || IsRowOf(id, toDelete, k) then None
        else Get(before, k)
  {
    var k, toAdd, toDelete := EntryKey(id, t), ToAdd(before, id, actions), ToDelete(before, id, actions);
    var toAdd', toDelete' := ToAdd(mid, id, actions), ToDelete(mid, id, actions);
    RegisteredIffEntry(before, id, t);
    RegisteredIffEntry(mid, id, t);
    EntryOf(id, toAdd, k);
    EntryOf(id, toDelete, k);
    EntryOf(id, toAdd', k);
    EntryOf(id, toDelete', k);
    assert
      || Get(mid, k) == Get(before, k)
      || (t in toAdd && Get(mid, k) == Some([]))
      || (t in toDelete && Get(mid, k) == None);
    assert Get(after, k) == if t in toAdd' then Some([]) else if t in toDelete' then None else Get(mid, k);
  }

  lemma {:induction false} RetriedOther(
    before: Data, mid: Data, after: Data, id: StackID, actions: seq<(TableName, bool)>, k: Blob)
    requires AddRequests(actions) !! DeleteRequests(actions) && forall t: TableName :: k != EntryKey(id, t)
    requires Retried(before, mid, after, id, actions)
    ensures Get(after, k) == if IsRowOf(id, ToDelete(before, id, actions), k) then None else Get(before, k)
  {
    var toDelete, toDelete' := ToDelete(before, id, actions), ToDelete(mid, id, actions);
    assert Get(after, k) == if IsRowOf(id, toDelete', k) then None else Get(mid, k);
    if IsRowOf(id, toDelete, k) {
      var t: TableName :| t in toDelete && TablePrefix(id, t) <= k;
      RegisteredIffEntry(mid, id, t);
      assert k in mid ==> t in toDelete';
    } else if t: TableName :| t in toDelete' && TablePrefix(id, t) <= k {
      StillToDelete(before, mid, id, actions, t);
    }
  }

  /** What a retry deletes, the first attempt was to delete. */
  lemma {:induction false} StillToDelete(
    before: Data, mid: Data, id: StackID, actions: seq<(TableName, bool)>, t: TableName)
    requires AddRequests(actions) !! DeleteRequests(actions) && Fails(before, mid, id, actions)
    requires t in ToDelete(mid, id, actions)
    ensures t in ToDelete(before, id, actions)
  {
    RegisteredIffEntry(mid, id, t);
    RegisteredIffEntry(before, id, t);
    EntryOf(id, ToAdd(before, id, actions), EntryKey(id, t));
    EntryOf(id, ToDelete(before, id, actions), EntryKey(id, t));
    assert Get(mid, EntryKey(id, t)).Some?;
  }

  /** What a retry adds, the first attempt was to add. */
  lemma {:induction false} StillToAdd(
    before: Data, mid: Data, id: StackID, actions: seq<(TableName, bool)>, t: TableName)
    requires AddRequests(actions) !! DeleteRequests(actions) && Fails(before, mid, id, actions)
    requires t in ToAdd(mid, id, actions)
    ensures t in ToAdd(before, id, actions)
  {
    RegisteredIffEntry(mid, id, t);
    RegisteredIffEntry(before, id, t);
    EntryOf(id, ToAdd(before, id, actions), EntryKey(id, t));
    EntryOf(id, ToDelete(before, id, actions), EntryKey(id, t));
    assert Get(mid, EntryKey(id, t)) == None;
  }

  /** An update that fails again has still failed half way. */
  lemma {:induction false} FailsAgain(
    before: Data, mid: Data, after: Data, id: StackID, actions: seq<(TableName, bool)>)
    requires AddRequests(actions) !! DeleteRequests(actions)
    requires Fails(before, mid, id, actions) && Fails(mid, after, id, actions)
    ensures Fails(before, after, id, actions)
  {
    var toAdd, toDelete := ToAdd(before, id, actions), ToDelete(before, id, actions);
    var toAdd', toDelete' := ToAdd(mid, id, actions), ToDelete(mid, id, actions);
    forall t: TableName
      ensures t in toAdd' ==> t in toAdd
      ensures t in toDelete' ==> t in toDelete
    {
      if t in toAdd' {
        StillToAdd(before, mid, id, actions, t);
      }
      if t in toDelete' {
        StillToDelete(before, mid, id, actions, t);
      }
    }
    RowsOfMore(id, toDelete', toDelete);
    assert PartlyUpdated(before, after, id, toAdd, toDelete);
    forall t, k | t in toDelete && k in after && TablePrefix(id, t) <= k
      ensures EntryKey(id, t) in after
    {
      RegisteredIffEntry(mid, id, t);
      RowIsNoEntry(id, t, k, toAdd');
      assert Get(after, k).Some?;
    }
  }

  /** Nothing is both added and deleted, and one scan shows all entries, those to come included. */
  ghost predicate Sendable(data: Data, id: StackID, actions: seq<(TableName, bool)>) {
    && AddRequests(actions) !! DeleteRequests(actions)
    && |KeysIn(data, ScanTableListRange(ByStackID(id)))| + |AddRequests(actions)| <= SCAN_LIMIT
  }

  lemma {:induction false} StillRoom(before: Data, mid: Data, id: StackID, actions: seq<(TableName, bool)>)
    requires Sendable(before, id, actions) && Fails(before, mid, id, actions)
    ensures |KeysIn(mid, ScanTableListRange(ByStackID(id)))| <= SCAN_LIMIT
  {
    var r, adds := ScanTableListRange(ByStackID(id)), AddRequests(actions);
    var entries := set t | t in adds :: EntryKey(id, t);
    EntriesCount(id, adds);
    forall k | k in KeysIn(mid, r)
      ensures k in KeysIn(before, r) + entries
    {
      assert Get(mid, k).Some?;
    }
    SubsetSize(KeysIn(mid, r), KeysIn(before, r) + entries);
  }

  lemma {:induction false} EntriesCount(id: StackID, tables: set<TableName>)
    ensures |set t | t in tables :: EntryKey(id, t)| <= |tables|
  {
    var entries := set t | t in tables :: EntryKey(id, t);
    if tables == {} {
      assert entries == {};
    } else {
      var t :| t in tables;
      EntriesCount(id, tables - {t});
      var fewer := set u | u in tables - {t} :: EntryKey(id, u);
      assert entries == fewer + {EntryKey(id, t)};
    }
  }

  /** The outcome of a single success. */
  ghost predicate Completed(first: Data, data: Data, id: StackID, actions: seq<(TableName, bool)>) {
    Sendable(first, id, actions) ==>
      && Updates(first, data, id, actions)
      && Registered(data, id) == Registered(first, id) + AddRequests(actions) - DeleteRequests(actions)
  }

  /** Only failures so far: every key was there at first or is an entry that was asked for, and a part of the update
      happened. */
  ghost predicate Unfinished(first: Data, data: Data, id: StackID, actions: seq<(TableName, bool)>) {
    KeysFrom(data, first, id, actions) && (Sendable(first, id, actions) ==> Fails(first, data, id, actions))
  }

  /** One more attempt, successful or not. */
  lemma {:induction false} AttemptEffect(
    first: Data, mid: Data, after: Data, id: StackID, actions: seq<(TableName, bool)>, ok: bool, seen: set<TableName>)
    requires Unfinished(first, mid, id, actions)
    requires ok ==> TablesUpdated(mid, after, id, AddRequests(actions) - seen, DeleteRequests(actions) * seen)
    requires !ok ==> PartlyUpdated(mid, after, id, AddRequests(actions) - seen, DeleteRequests(actions) * seen)
    requires !ok ==> NoOrphans(after, id, DeleteRequests(actions) * seen)
    requires |KeysIn(mid, ScanTableListRange(ByStackID(id)))| <= SCAN_LIMIT ==> seen == Registered(mid, id)
    ensures ok ==> Completed(first, after, id, actions)
    ensures !ok ==> Unfinished(first, after, id, actions)
  {
    if Sendable(first, id, actions) {
      StillRoom(first, mid, id, actions);
      if ok {
        RetryCompletes(first, mid, after, id, actions);
        PlusAddedMinusDeleted(first, after, id, actions);
      } else {
        FailsAgain(first, mid, after, id, actions);
      }
    }
    if !ok {
      PartlyKeysFrom(first, mid, after, id, actions, seen);
    }
  }

  /** Enough whatever earlier attempts left behind. */
  function CallsAlways(data: Data, actions: seq<(TableName, bool)>): nat {
    3 + |actions| + 2 * (|data| + |AddRequests(actions)|)
  }

  /** Every key was there at first or is an entry that was asked for. */
  ghost predicate KeysFrom(data: Data, first: Data, id: StackID, actions: seq<(TableName, bool)>) {
    forall k <- data :: k in first || IsEntryOf(id, AddRequests(actions), k)
  }

  lemma {:induction false} NeverManyMore(first: Data, data: Data, id: StackID, actions: seq<(TableName, bool)>)
    requires KeysFrom(data, first, id, actions)
    ensures CallsNeeded(data, actions) <= CallsAlways(first, actions)
    ensures WellFormedStore(first) ==> WellFormedStore(data)
  {
    var adds := AddRequests(actions);
    var entries := set t | t in adds :: EntryKey(id, t);
    EntriesCount(id, adds);
    forall k | k in data.Keys
      ensures k in first.Keys + entries
      ensures WellFormedStore(first) ==> WellFormed(k)
    {
      if t: TableName :| t in adds && k == EntryKey(id, t) {
        TableListKeyRoundTrip(TableListKey(id, t), k);
      }
    }
    SubsetSize(data.Keys, first.Keys + entries);
  }

  lemma {:induction false} PartlyKeysFrom(
    first: Data, mid: Data, after: Data, id: StackID, actions: seq<(TableName, bool)>, seen: set<TableName>)
    requires KeysFrom(mid, first, id, actions)
    requires PartlyUpdated(mid, after, id, AddRequests(actions) - seen, DeleteRequests(actions) * seen)
    ensures KeysFrom(after, first, id, actions)
  {
    forall k | k in after
      ensures k in first || IsEntryOf(id, AddRequests(actions), k)
    {
      assert Get(after, k).Some?;
    }
  }

  /** Enough store calls for an update: one scan, two batches, an empty scan for each action, and a scan and a
      delete for each key there may be to delete. */
  function CallsNeeded(data: Data, actions: seq<(TableName, bool)>): nat {
    3 + |actions| + 2 * |data|
  }

  lemma {:induction false} RowIsNoEntry(id: StackID, t: TableName, k: Blob, tables: set<TableName>)
    requires TablePrefix(id, t) <= k
    ensures !IsEntryOf(id, tables, k)
  {
    if u: TableName :| u in tables && k == EntryKey(id, u) {
      EntryOf(id, tables, k);
      assert IsRowOf(id, {t}, k);
    }
  }

  class DbClient {
    var data: Data

    constructor ()
      ensures data == map[]
    {
      data := map[];
    }

    /** The first keys of a range in key order, at most `limit` of them: what the store's scan returns. */
    method ScanKeys(r: BoundRange, limit: nat) returns (keys: seq<Blob>)
      ensures forall k <- keys :: k in KeysIn(data, r)
      ensures forall i, j :: 0 <= i < j < |keys| ==> Less(keys[i], keys[j])
      ensures |keys| == Min(limit, |KeysIn(data, r)|)
      ensures forall k <- KeysIn(data, r), q <- keys :: k in keys || Less(q, k)
    {
      keys := [];
      var todo := KeysIn(data, r);
      while |keys| < limit && todo != {}
        invariant |keys| <= limit
        invariant todo <= KeysIn(data, r) && |keys| + |todo| == |KeysIn(data, r)|
        invariant forall k <- KeysIn(data, r) :: k in todo || k in keys
        invariant forall k <- keys :: k in KeysIn(data, r)
        invariant forall i, j :: 0 <= i < j < |keys| ==> Less(keys[i], keys[j])
        invariant forall q <- keys, k <- todo :: Less(q, k)
      {
        var m := SmallestKey(todo);
        todo := todo - {m};
        keys := keys + [m];
      }
    }

    method BatchDelete(keys: seq<Blob>)
      modifies this
      ensures data == map k | k in old(data) && k !in keys :: old(data)[k]
    {
      data := map k | k in data && k !in keys :: data[k];
    }

    method DeleteRange(r: BoundRange)
      modifies this
      ensures data == Without(old(data), r)
    {
      data := map k | k in data && !InRange(r, k) :: data[k];
    }

    method PutCell(k: Key, value: Value) returns (ok: bool)
      modifies this
      ensures ok <==> k.tableName in old(Registered(data, k.stackId))
      ensures data == if ok then old(data)[EncodeKey(k) := value] else old(data)
    {
      RegisteredIffEntry(data, k.stackId, k.tableName);
      if EncodeTableListKey(TableListKey(k.stackId, k.tableName)) in data {
        data := data[EncodeKey(k) := value];
        return true;
      }
      return false;
    }

    /** Empties one table and touches nothing else. */
    method ClearTable(id: StackID, table: TableName)
      modifies this
      ensures forall k: Blob :: Get(data, k) == if TablePrefix(id, table) <= k then None else Get(old(data), k)
    {
      DeleteRange(ScanRange(ByTableName(id, table)));
      forall k: Blob
        ensures InRange(ScanRange(ByTableName(id, table)), k) <==> TablePrefix(id, table) <= k
      {
        ScanByTableNameExact(id, table, k);
        PrefixOfKey(id, table, k);
      }
    }

    /** Deletes the range of a prefix; for a prefix that is not leaky, exactly the matching cells go. */
    method DeleteByPrefix(id: StackID, table: TableName, prefix: Blob)
      modifies this
      ensures data == Without(old(data), ScanRange(ByInnerKeyPrefix(id, table, prefix)))
      ensures !Leaky(table, prefix) ==>
        forall k <- old(data) :: WellFormed(k) ==> (k !in data <==> Matches(id, table, prefix, k))
    {
      DeleteRange(ScanRange(ByInnerKeyPrefix(id, table, prefix)));
      ScanByInnerKeyPrefixExact(id, table, prefix);
    }

    /** A batch that fails may have been carried out in part. `calls` is how many store calls still succeed. */
    method BatchPutEmpty(keys: seq<Blob>, calls: nat) returns (ok: bool, left: nat)
      modifies this
      ensures ok <==> calls > 0
      ensures left == if calls > 0 then calls - 1 else 0
      ensures ok ==> forall k: Blob :: Get(data, k) == if k in keys then Some([]) else Get(old(data), k)
      ensures !ok ==> forall k: Blob :: Get(data, k) == Get(old(data), k) || (k in keys && Get(data, k) == Some([]))
    {
      if calls == 0 {
        var done: set<Blob> :| done <= set k | k in keys;
        data := data + map k | k in done :: [];
        return false, 0;
      }
      data := data + map k | k in keys :: [];
      return true, calls - 1;
    }

    method TryBatchDelete(keys: seq<Blob>, calls: nat) returns (ok: bool, left: nat)
      modifies this
      ensures ok <==> calls > 0
      ensures left == if calls > 0 then calls - 1 else 0
      ensures ok ==> forall k: Blob :: Get(data, k) == if k in keys then None else Get(old(data), k)
      ensures !ok ==> forall k: Blob :: Get(data, k) == Get(old(data), k) || (k in keys && Get(data, k) == None)
    {
      if calls == 0 {
        var done: set<Blob> :| done <= set k | k in keys;
        data := map k | k in data && k !in done :: data[k];
        return false, 0;
      }
      BatchDelete(keys);
      return true, calls - 1;
    }

    /** Registers and deletes tables as the stack's manifest asks. `seen` is what the single scan of the table
        list showed: all of the stack's tables when there are at most 10000 of them. Any store call may fail; then
        only a part of the update happened, and no table lost its entry while it had rows. */
    method UpdateStackTables(id: StackID, actions: seq<(TableName, bool)>, calls: nat)
      returns (ok: bool, left: nat, ghost seen: set<TableName>)
      modifies this
      ensures ok ==> TablesUpdated(old(data), data, id, AddRequests(actions) - seen, DeleteRequests(actions) * seen)
      ensures !ok ==> PartlyUpdated(old(data), data, id, AddRequests(actions) - seen, DeleteRequests(actions) * seen)
      ensures !ok ==> NoOrphans(data, id, DeleteRequests(actions) * seen)
      ensures seen <= Registered(old(data), id)
      ensures |KeysIn(old(data), ScanTableListRange(ByStackID(id)))| <= 10_000 ==> seen == Registered(old(data), id)
      ensures WellFormedStore(old(data)) && calls >= CallsNeeded(old(data), actions) ==> ok
    {
      seen := Registered(data, id);
      KeepsEntries(data, id, DeleteRequests(actions) * seen);
      if calls == 0 {
        return false, 0, seen;
      }
      var existing;
      ok, existing := ExistingTables(id);
      left := calls - 1;
      if !ok {
        return;
      }
      seen := existing;
      ghost var toAdd, toDelete := AddRequests(actions) - existing, DeleteRequests(actions) * existing;
      var kvsAdd, kvsDelete;
      ok, left, kvsAdd, kvsDelete := PerformActions(id, actions, existing, left);
      if !ok {
        EntriesSurvive(old(data), data, id, toDelete);
        return;
      }
      ok, left := CommitEntries(id, kvsAdd, kvsDelete, left, old(data), toAdd, toDelete);
    }

    /** Sends the update again until it succeeds or no attempt is left; each attempt has its own number of store
        calls that succeed. With room for all entries in one scan and no table both added and deleted, the outcome
        is that of a single success. */
    method UpdateUntilDone(id: StackID, actions: seq<(TableName, bool)>, attempts: seq<nat>) returns (ok: bool)
      modifies this
      ensures ok ==> Completed(old(data), data, id, actions)
      ensures !ok ==> Unfinished(old(data), data, id, actions)
      ensures
        WellFormedStore(old(data)) && (exists calls <- attempts :: calls >= CallsAlways(old(data), actions)) ==> ok
    {
      ok := false;
      KeepsEntries(data, id, ToDelete(data, id, actions));
      for i := 0 to |attempts|
        invariant Unfinished(old(data), data, id, actions)
        invariant WellFormedStore(old(data)) ==>
          forall k :: 0 <= k < i ==> attempts[k] < CallsAlways(old(data), actions)
      {
        ok := SendAgain(id, actions, attempts[i], old(data));
        if ok {
          return;
        }
      }
    }

    /** One more attempt. */
    method SendAgain(id: StackID, actions: seq<(TableName, bool)>, calls: nat, ghost first: Data) returns (ok: bool)
      requires Unfinished(first, data, id, actions)
      modifies this
      ensures ok ==> Completed(first, data, id, actions)
      ensures !ok ==> Unfinished(first, data, id, actions)
      ensures WellFormedStore(first) && calls >= CallsAlways(first, actions) ==> ok
    {
      ghost var mid := data;
      NeverManyMore(first, mid, id, actions);
      var left;
      ghost var seen;
      ok, left, seen := UpdateStackTables(id, actions, calls);
      AttemptEffect(first, mid, data, id, actions, ok, seen);
    }

    /** The last two batches, after the rows of the tables to delete are gone. */
    method CommitEntries(
      id: StackID, kvsAdd: seq<Blob>, kvsDelete: seq<Blob>, calls: nat,
      ghost before: Data, ghost toAdd: set<TableName>, ghost toDelete: set<TableName>) returns (ok: bool, left: nat)
      requires ListsEntries(kvsAdd, id, toAdd) && ListsEntries(kvsDelete, id, toDelete)
      requires RowsGone(before, data, id, toDelete)
      requires toAdd !! toDelete
      modifies this
      ensures ok ==> TablesUpdated(before, data, id, toAdd, toDelete)
      ensures ok <==> calls >= 2
      ensures !ok ==> left == 0 && PartlyUpdated(before, data, id, toAdd, toDelete) && NoOrphans(data, id, toDelete)
    {
      NewEntriesStay(id, toAdd, toDelete);
      assert forall t <- toDelete, k: Blob :: TablePrefix(id, t) <= k ==> IsRowOf(id, toDelete, k);
      ok, left := BatchPutEmpty(kvsAdd, calls);
      assert forall k: Blob :: IsRowOf(id, toDelete, k) ==> Get(data, k) == None;
      if ok {
        ok, left := TryBatchDelete(kvsDelete, left);
        assert forall k: Blob :: IsRowOf(id, toDelete, k) ==> Get(data, k) == None;
      }
      assert forall k <- data :: Get(data, k).Some?;
    }

    /** Goes through the requested actions: lists the entries to add and to delete, and empties the tables
        to delete on the way. */
    method PerformActions(id: StackID, actions: seq<(TableName, bool)>, existing: set<TableName>, calls: nat)
      returns (ok: bool, left: nat, kvsAdd: seq<Blob>, kvsDelete: seq<Blob>)
      modifies this
      ensures ok ==> ListsEntries(kvsAdd, id, AddRequests(actions) - existing)
      ensures ok ==> ListsEntries(kvsDelete, id, DeleteRequests(actions) * existing)
      ensures ok ==> RowsGone(old(data), data, id, DeleteRequests(actions) * existing)
      ensures ok ==> calls <= left + |actions| + 2 * |old(data)|
      ensures !ok ==> left == 0 && calls <= |actions| + 2 * |old(data)|
      ensures !ok ==> RowsPartlyGone(old(data), data, id, DeleteRequests(actions) * existing)
    {
      ok, left, kvsAdd, kvsDelete := true, calls, [], [];
      for i := 0 to |actions|
        invariant ok
        invariant ListsEntries(kvsAdd, id, AddRequests(actions[..i]) - existing)
        invariant ListsEntries(kvsDelete, id, DeleteRequests(actions[..i]) * existing)
        invariant RowsGone(old(data), data, id, DeleteRequests(actions[..i]) * existing)
        invariant |data| <= |old(data)| && calls <= left + i + 2 * (|old(data)| - |data|)
      {
        ghost var toAdd, toDelete := AddRequests(actions[..i]) - existing, DeleteRequests(actions[..i]) * existing;
        var (table, isDelete) := actions[i];
        PlanExtended(actions, i, existing);
        if table !in existing && !isDelete {
          EntryListed(kvsAdd, id, toAdd, table);
          kvsAdd := kvsAdd + [EntryKey(id, table)];
        } else if table in existing && isDelete {
          EntryListed(kvsDelete, id, toDelete, table);
          kvsDelete := kvsDelete + [EntryKey(id, table)];
          ok, left := DropMore(id, table, left, old(data), toDelete);
          if !ok {
            PartlyGoneOfMore(old(data), data, id, toDelete + {table}, DeleteRequests(actions) * existing);
            return;
          }
        }
      }
      assert actions[..|actions|] == actions;
    }

    /** Empties one more table. */
    method DropMore(id: StackID, table: TableName, calls: nat, ghost first: Data, ghost gone: set<TableName>)
      returns (ok: bool, left: nat)
      requires RowsGone(first, data, id, gone)
      modifies this
      ensures ok ==> RowsGone(first, data, id, gone + {table})
      ensures !ok ==> RowsPartlyGone(first, data, id, gone + {table})
      ensures !ok ==> left == 0 && calls <= 2 * |old(data)|
      ensures ok ==> calls <= left + 1 + 2 * (|old(data)| - |data|)
      ensures |data| <= |old(data)|
    {
      EntriesExtended(id, gone, table);
      ok, left := DropRows(id, table, calls);
    }

    method ExistingTables(id: StackID) returns (ok: bool, tables: set<TableName>)
      ensures ok ==> tables <= Registered(data, id)
      ensures ok && |KeysIn(data, ScanTableListRange(ByStackID(id)))| <= SCAN_LIMIT ==> tables == Registered(data, id)
      ensures WellFormedStore(data) ==> ok
    {
      var r := ScanTableListRange(ByStackID(id));
      var listing := ScanKeys(r, SCAN_LIMIT);
      ok, tables := DecodeNames(listing);
      forall k | k in listing && WellFormed(k)
        ensures DecodeTableListKey(k).Ok? && DecodeTableListKey(k).value.stackId == id
      {
        ScanTableListExact(ByStackID(id), k);
      }
      if |KeysIn(data, r)| <= SCAN_LIMIT {
        AllListed(KeysIn(data, r), listing);
        forall t: TableName | t in Registered(data, id)
          ensures EntryKey(id, t) in KeysIn(data, r) && DecodeTableListKey(EntryKey(id, t)) == Ok(TableListKey(id, t))
        {
          EntryInRange(data, id, t);
        }
      }
    }

    /** Repeats scan and batch delete until the table's range is empty; every round removes keys. */
    method DropRows(id: StackID, table: TableName, calls: nat) returns (ok: bool, left: nat)
      modifies this
      ensures ok ==> forall k: Blob :: Get(data, k) == if TablePrefix(id, table) <= k then None else Get(old(data), k)
      ensures !ok ==> left == 0 && calls <= 2 * |old(data)|
      ensures ok ==> calls <= left + 1 + 2 * (|old(data)| - |data|)
      ensures |data| <= |old(data)|
      ensures !ok ==> forall k: Blob ::
        Get(data, k) == Get(old(data), k) || (TablePrefix(id, table) <= k && Get(data, k) == None)
    {
      var r := ScanRange(ByTableName(id, table));
      forall k: Blob
        ensures InRange(r, k) <==> TablePrefix(id, table) <= k
      {
        ScanByTableNameExact(id, table, k);
        PrefixOfKey(id, table, k);
      }
      left := calls;
      while true
        invariant forall k: Blob :: Get(data, k) == Get(old(data), k) || (InRange(r, k) && Get(data, k) == None)
        invariant |data| <= |old(data)| && calls <= left + 2 * (|old(data)| - |data|)
        decreases |KeysIn(data, r)|
      {
        if left == 0 {
          return false, 0;
        }
        left := left - 1;
        var keys := ScanKeys(r, SCAN_LIMIT);
        if keys == [] {
          break;
        }
        ghost var before, was := KeysIn(data, r), data;
        assert keys[0] in before;
        ok, left := TryBatchDelete(keys, left);
        FewerKeys(was, data, keys, ok);
        if !ok {
          return;
        }
        assert forall k <- data :: Get(data, k).Some? && k in was && k !in keys;
        assert KeysIn(data, r) <= before - {keys[0]} && keys[0] in before;
        SmallerSet(KeysIn(data, r), before, keys[0]);
      }
      assert KeysIn(data, r) == {};
      assert forall k <- data :: InRange(r, k) ==> k in KeysIn(data, r);
      ok := true;
    }
  }

  ghost predicate ListsEntries(keys: seq<Blob>, id: StackID, tables: set<TableName>) {
    forall k: Blob :: k in keys <==> IsEntryOf(id, tables, k)
  }

  lemma {:induction false} EntryListed(keys: seq<Blob>, id: StackID, tables: set<TableName>, t: TableName)
    requires ListsEntries(keys, id, tables)
    ensures ListsEntries(keys + [EntryKey(id, t)], id, tables + {t})
  {
    EntriesExtended(id, tables, t);
  }

  ghost predicate RowsGone(before: Data, after: Data, id: StackID, tables: set<TableName>) {
    forall k: Blob :: Get(after, k) == if IsRowOf(id, tables, k) then None else Get(before, k)
  }

  ghost predicate RowsPartlyGone(before: Data, after: Data, id: StackID, tables: set<TableName>) {
    forall k: Blob :: Get(after, k) == Get(before, k) || (IsRowOf(id, tables, k) && Get(after, k) == None)
  }

  lemma {:induction false} PartlyGoneOfMore(
    before: Data, after: Data, id: StackID, some: set<TableName>, all: set<TableName>)
    requires some <= all && RowsPartlyGone(before, after, id, some)
    ensures RowsPartlyGone(before, after, id, all)
  {
    RowsOfMore(id, some, all);
  }

  /** A batch delete leaves no more keys, and fewer when it succeeds on a key that is there. */
  lemma {:induction false} FewerKeys(before: Data, after: Data, keys: seq<Blob>, ok: bool)
    requires keys != [] && keys[0] in before
    requires forall k: Blob :: Get(after, k) == Get(before, k) || (k in keys && Get(after, k) == None)
    requires ok ==> Get(after, keys[0]) == None
    ensures |after| <= |before| && |before| > 0
    ensures ok ==> |after| < |before|
  {
    forall k | k in after.Keys
      ensures k in before.Keys
    {
      assert Get(after, k).Some?;
    }
    SubsetSize(after.Keys, before.Keys);
    assert keys[0] in before.Keys;
    if ok {
      assert keys[0] !in after.Keys;
      SmallerSet(after.Keys, before.Keys, keys[0]);
    }
  }

  lemma {:induction false} KeepsEntries(data: Data, id: StackID, tables: set<TableName>)
    requires tables <= Registered(data, id)
    ensures NoOrphans(data, id, tables)
  {
    forall t | t in tables
      ensures EntryKey(id, t) in data
    {
      RegisteredIffEntry(data, id, t);
    }
  }

  /** Dropping rows removes no entry. */
  lemma {:induction false} EntriesSurvive(before: Data, after: Data, id: StackID, tables: set<TableName>)
    requires tables <= Registered(before, id)
    requires RowsPartlyGone(before, after, id, tables)
    ensures NoOrphans(after, id, tables)
  {
    forall t | t in tables
      ensures EntryKey(id, t) in after
    {
      RegisteredIffEntry(before, id, t);
      EntryOf(id, tables, EntryKey(id, t));
      assert Get(before, EntryKey(id, t)).Some?;
    }
  }

  lemma {:induction false} RowsOfMore(id: StackID, some: set<TableName>, all: set<TableName>)
    requires some <= all
    ensures forall k: Blob :: IsRowOf(id, some, k) ==> IsRowOf(id, all, k)
  {
  }

  method DecodeNames(listing: seq<Blob>) returns (ok: bool, names: set<TableName>)
    ensures ok <==> forall k <- listing :: DecodeTableListKey(k).Ok?
    ensures ok ==> forall k <- listing :: DecodeTableListKey(k).value.tableName in names
    ensures ok ==> forall t <- names :: exists k <- listing :: DecodeTableListKey(k).value.tableName == t
  {
    names := {};
    for i := 0 to |listing|
      invariant forall k <- listing[..i] :: DecodeTableListKey(k).Ok?
      invariant forall k <- listing[..i] :: DecodeTableListKey(k).value.tableName in names
      invariant forall t <- names :: exists k <- listing[..i] :: DecodeTableListKey(k).value.tableName == t
    {
      var decoded := DecodeTableListKey(listing[i]);
      if decoded.Err? {
        return false, {};
      }
      names := names + {decoded.value.tableName};
      assert listing[..i + 1] == listing[..i] + [listing[i]];
    }
    ok := true;
    assert listing[..|listing|] == listing;
  }

  lemma {:induction false} EntryInRange(data: Data, id: StackID, t: TableName)
    requires t in Registered(data, id)
    ensures DecodeTableListKey(EntryKey(id, t)) == Ok(TableListKey(id, t))
    ensures EntryKey(id, t) in KeysIn(data, ScanTableListRange(ByStackID(id)))
  {
    RegisteredIffEntry(data, id, t);
    TableListKeyRoundTrip(TableListKey(id, t), []);
    ScanTableListExact(ByStackID(id), EntryKey(id, t));
  }

  lemma {:induction false} RequestsExtended(actions: seq<(TableName, bool)>, i: nat)
    requires i < |actions|
    ensures AddRequests(actions[..i + 1]) == AddRequests(actions[..i]) + (if actions[i].1 then {} else {actions[i].0})
    ensures DeleteRequests(actions[..i + 1]) ==
      DeleteRequests(actions[..i]) + (if actions[i].1 then {actions[i].0} else {})
  {
    assert actions[..i + 1] == actions[..i] + [actions[i]];
  }

  /** One more action adds one entry to the plan, or none. */
  lemma {:induction false} PlanExtended(actions: seq<(TableName, bool)>, i: nat, existing: set<TableName>)
    requires i < |actions|
    ensures
      var table, isDelete := actions[i].0, actions[i].1;
      && AddRequests(actions[..i + 1]) - existing ==
           AddRequests(actions[..i]) - existing + (if table !in existing && !isDelete then {table} else {})
      && DeleteRequests(actions[..i + 1]) * existing ==
           DeleteRequests(actions[..i]) * existing + (if table in existing && isDelete then {table} else {})
    ensures DeleteRequests(actions[..i + 1]) * existing <= DeleteRequests(actions) * existing
  {
    RequestsExtended(actions, i);
  }

  lemma {:induction false} EntriesExtended(id: StackID, tables: set<TableName>, t: TableName)
    ensures forall k: Blob :: IsEntryOf(id, tables + {t}, k) <==> IsEntryOf(id, tables, k) || k == EntryKey(id, t)
    ensures forall k: Blob :: IsRowOf(id, tables + {t}, k) <==> IsRowOf(id, tables, k) || TablePrefix(id, t) <= k
  {
    assert t in tables + {t};
    assert forall u <- tables :: u in tables + {t};
  }

  /** Entries just added are neither entries nor rows of a deleted table. */
  lemma {:induction false} NewEntriesStay(id: StackID, toAdd: set<TableName>, toDelete: set<TableName>)
    requires toAdd !! toDelete
    ensures forall k: Blob :: IsEntryOf(id, toAdd, k) ==> !IsEntryOf(id, toDelete, k) && !IsRowOf(id, toDelete, k)
  {
    forall k: Blob | IsEntryOf(id, toAdd, k)
      ensures !IsEntryOf(id, toDelete, k) && !IsRowOf(id, toDelete, k)
    {
      var t :| t in toAdd && k == EntryKey(id, t);
      EntryMembership(id, toDelete, TableListKey(id, t));
    }
  }

  /** A strictly sorted list of as many keys as the set has lists them all. */
  lemma {:induction false} AllListed(s: set<Blob>, keys: seq<Blob>)
    requires forall k <- keys :: k in s
    requires forall i, j :: 0 <= i < j < |keys| ==> Less(keys[i], keys[j])
    requires |keys| == |s|
    ensures forall k <- s :: k in keys
  {
    if keys != [] {
      var init, last := keys[..|keys| - 1], keys[|keys| - 1];
      forall k | k in init
        ensures k in s - {last}
      {
        var i :| 0 <= i < |init| && init[i] == k;
        LessTrichotomy(k, k);
        assert Less(keys[i], keys[|keys| - 1]);
      }
      AllListed(s - {last}, init);
      assert keys == init + [last];
    }
  }

  lemma {:induction false} SmallerSet(a: set<Blob>, b: set<Blob>, x: Blob)
    requires a <= b - {x} && x in b
    ensures |a| < |b|
  {
    SubsetSize(a, b - {x});
  }

  lemma {:induction false} SubsetSize(a: set<Blob>, b: set<Blob>)
    requires a <= b
    ensures |a| <= |b|
  {
    if a != {} {
      var x :| x in a;
      SubsetSize(a - {x}, b - {x});
    }
  }

  method SmallestKey(s: set<Blob>) returns (m: Blob)
    requires s != {}
    ensures m in s && forall k <- s :: k == m || Less(m, k)
  {
    m :| m in s;
    var todo := s - {m};
    while todo != {}
      invariant todo <= s && m in s
      invariant forall k <- s :: k in todo || k == m || Less(m, k)
    {
      var k :| k in todo;
      todo := todo - {k};
      LessTrichotomy(k, m);
      if Less(k, m) {
        forall q | q in s && q !in todo && q != k
          ensures Less(k, q)
        {
          if q != m {
            LessTransitive(k, m, q);
          }
        }
        m := k;
      }
    }
  }
}
