/** How (stack, table, key) triples and the table list are flattened into byte strings, and which byte
    strings each scan selects. */
module Keys {
  import opened Ids
  import opened KeyRange

  // ---- UTF-8 ----

  predicate Tail(b: Byte) {
    0x80 <= b <= 0xBF
  }

  /** Well-formed UTF-8: the grammar of section 4 of RFC 3629. */
  predicate Utf8(s: Blob) {
    if s == [] then true
    else if s[0] <= 0x7F then Utf8(s[1..])
    else if 0xC2 <= s[0] <= 0xDF then |s| >= 2 && Tail(s[1]) && Utf8(s[2..])
    else if 0xE0 <= s[0] <= 0xEF then
      && |s| >= 3
      && (if s[0] == 0xE0 then 0xA0 <= s[1] <= 0xBF else if s[0] == 0xED then 0x80 <= s[1] <= 0x9F else Tail(s[1]))
      && Tail(s[2]) && Utf8(s[3..])
    else if 0xF0 <= s[0] <= 0xF4 then
      && |s| >= 4
      && (if s[0] == 0xF0 then 0x90 <= s[1] <= 0xBF else if s[0] == 0xF4 then 0x80 <= s[1] <= 0x8F else Tail(s[1]))
      && Tail(s[2]) && Tail(s[3]) && Utf8(s[4..])
    else false
  }

  /** No byte of well-formed UTF-8 is 0xFF. */
  lemma {:induction false} Utf8HasNoMax(s: Blob)
    requires Utf8(s)
    ensures forall i | 0 <= i < |s| :: s[i] != 255
  {
    if s != [] {
      var n := if s[0] <= 0x7F then 1 else if s[0] <= 0xDF then 2 else if s[0] <= 0xEF then 3 else 4;
      Utf8HasNoMax(s[n..]);
      forall i | 0 <= i < |s|
        ensures s[i] != 255
      {
        if i >= n {
          assert s[i] == s[n..][i - n];
        }
      }
    }
  }

  /** A table name: at most 255 bytes of UTF-8. */
  type TableName = s: Blob | Utf8(s) && |s| <= 255 witness []

  function TableNameFromBytes(b: Blob): Result<TableName, string> {
    if !Utf8(b) then Err("invalid utf-8")
    else if |b| > 255 then Err("table name can't exceed 255 bytes")
    else Ok(b)
  }

  // ---- Stack ids ----

  const STACK_ID_SIZE := KEY_SIZE + 1

  function StackIdToBytes(id: StackID): (b: Blob)
    ensures |b| == STACK_ID_SIZE
  {
    [1] + id.key
  }

  function StackIdFromBytes(b: Blob): Result<StackID, string> {
    if |b| != STACK_ID_SIZE then Err("Incorrect byte count")
    else if b[0] != 1 then Err("Unknown StackID discriminator")
    else Ok(SolanaPublicKey(b[1..]))
  }

  lemma {:induction false} StackIdRoundTrip(id: StackID, b: Blob)
    ensures StackIdFromBytes(StackIdToBytes(id)) == Ok(id)
    ensures StackIdFromBytes(b).Ok? ==> StackIdToBytes(StackIdFromBytes(b).value) == b
  {
    assert StackIdToBytes(id)[1..] == id.key;
    if StackIdFromBytes(b).Ok? {
      assert b == [b[0]] + b[1..];
    }
  }

  // ---- Three chunks ----

  function Chunk(c: Blob): Blob
    requires |c| <= 255
  {
    [|c|] + c
  }

  /** The first two chunks carry their length in one byte; the source asserts that they fit. */
  function Encode3(a: Blob, b: Blob, c: Blob): Blob
    requires |a| <= 255 && |b| <= 255
  {
    Chunk(a) + Chunk(b) + c
  }

  function SplitChunk(x: Blob): Result<(Blob, Blob), string> {
    if x == [] || |x| - 1 < x[0] then Err("Insufficient blobs to convert to Key")
    else Ok((x[1..1 + x[0]], x[1 + x[0]..]))
  }

  function Decode3(x: Blob): Result<(Blob, Blob, Blob), string> {
    var first := SplitChunk(x);
    if first.Err? then Err(first.error)
    else
      var second := SplitChunk(first.value.1);
      if second.Err? then Err(second.error) else Ok((first.value.0, second.value.0, second.value.1))
  }

  lemma {:induction false} ChunkRoundTrip(c: Blob, rest: Blob)
    requires |c| <= 255
    ensures SplitChunk(Chunk(c) + rest) == Ok((c, rest))
  {
    var x := Chunk(c) + rest;
    assert x[1..1 + |c|] == c && x[1 + |c|..] == rest;
  }

  lemma {:induction false} ChunkSplit(x: Blob)
    requires SplitChunk(x).Ok?
    ensures var (c, rest) := SplitChunk(x).value; |c| <= 255 && x == Chunk(c) + rest
  {
    assert x == [x[0]] + x[1..1 + x[0]] + x[1 + x[0]..];
  }

  /** The three-chunk codec is a bijection between triples that fit and byte strings that decode. */
  lemma {:induction false} Encode3RoundTrip(a: Blob, b: Blob, c: Blob)
    requires |a| <= 255 && |b| <= 255
    ensures Decode3(Encode3(a, b, c)) == Ok((a, b, c))
  {
    assert Encode3(a, b, c) == Chunk(a) + (Chunk(b) + c);
    ChunkRoundTrip(a, Chunk(b) + c);
    ChunkRoundTrip(b, c);
  }

  lemma {:induction false} Decode3RoundTrip(x: Blob)
    requires Decode3(x).Ok?
    ensures var (a, b, c) := Decode3(x).value; |a| <= 255 && |b| <= 255 && Encode3(a, b, c) == x
  {
    ChunkSplit(x);
    var (a, rest) := SplitChunk(x).value;
    ChunkSplit(rest);
    var (b, c) := SplitChunk(rest).value;
    assert Chunk(a) + (Chunk(b) + c) == Chunk(a) + Chunk(b) + c;
  }

  // ---- Keys ----

  datatype Key = Key(stackId: StackID, tableName: TableName, innerKey: Blob)

  datatype TableListKey = TableListKey(stackId: StackID, tableName: TableName)

  /** The bytes of "__tlm", under which the table list is kept. */
  const TABLE_LIST: Blob := [0x5F, 0x5F, 0x74, 0x6C, 0x6D]

  function EncodeKey(k: Key): Blob {
    Encode3(StackIdToBytes(k.stackId), k.tableName, k.innerKey)
  }

  function DecodeKey(x: Blob): Result<Key, string> {
    var chunks := Decode3(x);
    if chunks.Err? then Err(chunks.error)
    else
      var (a, b, c) := chunks.value;
      var id := StackIdFromBytes(a);
      if id.Err? then Err(id.error)
      else
        var table := TableNameFromBytes(b);
        if table.Err? then Err(table.error) else Ok(Key(id.value, table.value, c))
  }

  function EncodeTableListKey(k: TableListKey): Blob {
    Encode3(TABLE_LIST, StackIdToBytes(k.stackId), k.tableName)
  }

  function DecodeTableListKey(x: Blob): Result<TableListKey, string> {
    var chunks := Decode3(x);
    if chunks.Err? then Err(chunks.error)
    else
      var (a, b, c) := chunks.value;
      if a != TABLE_LIST then Err("Can't deserialize TableListKey")
      else
        var id := StackIdFromBytes(b);
        if id.Err? then Err(id.error)
        else
          var table := TableNameFromBytes(c);
          if table.Err? then Err(table.error) else Ok(TableListKey(id.value, table.value))
  }

  lemma {:induction false} KeyRoundTrip(k: Key, x: Blob)
    ensures DecodeKey(EncodeKey(k)) == Ok(k)
    ensures DecodeKey(x).Ok? ==> EncodeKey(DecodeKey(x).value) == x
  {
    Encode3RoundTrip(StackIdToBytes(k.stackId), k.tableName, k.innerKey);
    StackIdRoundTrip(k.stackId, []);
    if DecodeKey(x).Ok? {
      Decode3RoundTrip(x);
      StackIdRoundTrip(k.stackId, Decode3(x).value.0);
    }
  }

  lemma {:induction false} TableListKeyRoundTrip(k: TableListKey, x: Blob)
    ensures DecodeTableListKey(EncodeTableListKey(k)) == Ok(k)
    ensures DecodeTableListKey(x).Ok? ==> EncodeTableListKey(DecodeTableListKey(x).value) == x
  {
    Encode3RoundTrip(TABLE_LIST, StackIdToBytes(k.stackId), k.tableName);
    StackIdRoundTrip(k.stackId, []);
    if DecodeTableListKey(x).Ok? {
      Decode3RoundTrip(x);
      StackIdRoundTrip(k.stackId, Decode3(x).value.1);
    }
  }

  /** Byte by byte: 33 bytes of stack id of which the first is 1, the table name's length and name, then the user's
      key; and for the table list, "__tlm" in front. */
  lemma {:induction false} KeyLayout(k: Key, l: TableListKey)
    ensures EncodeKey(k) == [33, 1] + k.stackId.key + [|k.tableName|] + k.tableName + k.innerKey
    ensures EncodeTableListKey(l) ==
      [5, 0x5F, 0x5F, 0x74, 0x6C, 0x6D, 33, 1] + l.stackId.key + l.tableName
  {
    assert [33] + ([1] + k.stackId.key) == [33, 1] + k.stackId.key;
    assert [5] + TABLE_LIST + ([33] + ([1] + l.stackId.key)) ==
      [5, 0x5F, 0x5F, 0x74, 0x6C, 0x6D, 33, 1] + l.stackId.key;
  }

  /** Membership entries start with a zero byte and an 'M'. */
  const MEMBERSHIP_PREFIX: Blob := [0, 0x4D]
  const MEMBERSHIP_UPPER: Blob := [0, 0x4E]

  predicate IsMembershipKey(x: Blob) {
    MEMBERSHIP_PREFIX <= x
  }

  /** The keys the system ever stores. */
  predicate WellFormed(x: Blob) {
    DecodeKey(x).Ok? || DecodeTableListKey(x).Ok? || IsMembershipKey(x)
  }

  /** The first byte tells the three kinds apart: a stack id takes 33 bytes, the table-list tag 5, and
      membership keys start with 0. */
  lemma {:induction false} FirstByte(x: Blob)
    ensures DecodeKey(x).Ok? ==> |x| > 0 && x[0] == 33
    ensures DecodeTableListKey(x).Ok? ==> |x| > 0 && x[0] == 5
    ensures IsMembershipKey(x) ==> |x| > 0 && x[0] == 0
  {
  }

  // ---- Scans ----

  function TablePrefix(id: StackID, table: TableName): (p: Blob)
    ensures |p| == 35 + |table| && p[|p| - 1] != 255
  {
    Utf8HasNoMax(table);
    Chunk(StackIdToBytes(id)) + Chunk(table)
  }

  function TableListPrefix(id: StackID): Blob {
    Chunk(TABLE_LIST) + Chunk(StackIdToBytes(id))
  }

  datatype Scan =
    | ByTableName(id: StackID, table: TableName)
    | ByInnerKeyPrefix(id: StackID, table: TableName, prefix: Blob)

  datatype ScanTableList =
    | Whole
    | ByStackID(id: StackID)
    | ByTableNamePrefix(id: StackID, prefix: TableName)

  function ScanPrefix(s: Scan): Blob {
    match s
    case ByTableName(id, table) => TablePrefix(id, table)
    case ByInnerKeyPrefix(id, table, prefix) => TablePrefix(id, table) + prefix
  }

  function ScanTableListPrefix(s: ScanTableList): Blob {
    match s
    case Whole => Chunk(TABLE_LIST)
    case ByStackID(id) => TableListPrefix(id)
    case ByTableNamePrefix(id, prefix) => TableListPrefix(id) + prefix
  }

  function ScanRange(s: Scan): BoundRange {
    SubsetRange(ScanPrefix(s))
  }

  function ScanTableListRange(s: ScanTableList): BoundRange {
    SubsetRange(ScanTableListPrefix(s))
  }

  lemma {:induction false} PrefixOfKey(id: StackID, table: TableName, x: Blob)
    ensures TablePrefix(id, table) <= x <==>
      DecodeKey(x).Ok? && DecodeKey(x).value.stackId == id && DecodeKey(x).value.tableName == table
    ensures TablePrefix(id, table) <= x ==> x == TablePrefix(id, table) + DecodeKey(x).value.innerKey
  {
    var p := TablePrefix(id, table);
    if p <= x {
      var k := Key(id, table, x[|p|..]);
      assert EncodeKey(k) == p + x[|p|..] == x;
      KeyRoundTrip(k, x);
    }
    if DecodeKey(x).Ok? && DecodeKey(x).value.stackId == id && DecodeKey(x).value.tableName == table {
      var k := DecodeKey(x).value;
      KeyRoundTrip(k, x);
      assert x == p + k.innerKey;
    }
  }

  /** A scan of a table selects exactly that stack's and that table's keys, whatever else is stored. */
  lemma {:induction false} ScanByTableNameExact(id: StackID, table: TableName, x: Blob)
    ensures InRange(ScanRange(ByTableName(id, table)), x) <==>
      DecodeKey(x).Ok? && DecodeKey(x).value.stackId == id && DecodeKey(x).value.tableName == table
  {
    ExactWithoutTrailingMax(TablePrefix(id, table), x);
    PrefixOfKey(id, table, x);
  }

  // ---- The table list ----

  predicate Selects(s: ScanTableList, k: TableListKey) {
    match s
    case Whole => true
    case ByStackID(id) => k.stackId == id
    case ByTableNamePrefix(id, prefix) => k.stackId == id && prefix <= k.tableName
  }

  lemma {:induction false} TableListKeyShape(k: TableListKey)
    ensures EncodeTableListKey(k) == TableListPrefix(k.stackId) + k.tableName
    ensures Chunk(TABLE_LIST) <= TableListPrefix(k.stackId)
  {
  }

  lemma {:induction false} TableListPrefixInjective(a: StackID, b: StackID)
    requires TableListPrefix(a) == TableListPrefix(b)
    ensures a == b
  {
    assert TableListPrefix(a)[8..] == a.key && TableListPrefix(b)[8..] == b.key;
  }

  lemma {:induction false} EntryHasPrefix(k: TableListKey, id: StackID, prefix: Blob)
    ensures TableListPrefix(id) + prefix <= EncodeTableListKey(k) <==> k.stackId == id && prefix <= k.tableName
  {
    var x, p := EncodeTableListKey(k), TableListPrefix(id) + prefix;
    TableListKeyShape(k);
    assert x[..40] == TableListPrefix(k.stackId) && x[40..] == k.tableName;
    assert p[..40] == TableListPrefix(id) && p[40..] == prefix;
    if p <= x {
      assert x[..40] == x[..|p|][..40] == p[..40];
      TableListPrefixInjective(id, k.stackId);
      assert x[40..][..|prefix|] == x[..|p|][40..];
    }
    if k.stackId == id && prefix <= k.tableName {
      assert x == p + k.tableName[|prefix|..];
    }
  }

  /** A well-formed key with the prefix of a table-list scan is a table entry the scan asks for. */
  lemma {:induction false} PrefixSelects(s: ScanTableList, x: Blob)
    requires WellFormed(x)
    ensures ScanTableListPrefix(s) <= x <==> DecodeTableListKey(x).Ok? && Selects(s, DecodeTableListKey(x).value)
  {
    FirstByte(x);
    if DecodeTableListKey(x).Ok? {
      var k := DecodeTableListKey(x).value;
      TableListKeyRoundTrip(k, x);
      match s
      case Whole => TableListKeyShape(k);
      case ByStackID(id) =>
        assert TableListPrefix(id) + [] == TableListPrefix(id);
        EntryHasPrefix(k, id, []);
      case ByTableNamePrefix(id, prefix) => EntryHasPrefix(k, id, prefix);
    } else {
      assert ScanTableListPrefix(s)[0] == 5;
    }
  }

  /** What the range of a stack's table entries holds beyond its prefix, when the public key ends in 0xFF,
      is too short to be a key. */
  lemma {:induction false} TableListOvershoot(id: StackID, x: Blob)
    requires Overshoot(TableListPrefix(id), x)
    ensures !WellFormed(x)
  {
    var p := TableListPrefix(id);
    assert |p| == 40 && p[0] == 5 && p[6] == 33 && p[7] == 1;
    CarriedShape(p);
    var j := LastNonMax(p);
    assert j >= 7;
    var u := Carried(p).value;
    var i: nat :| j < i < |u| && x == u[..i];
    assert forall n | 0 <= n < 7 :: u[n] == p[n];
    assert x[0] == 5 && x[6] == 33 && 8 <= |x| < 40;
    assert x[1 + x[0]..][0] == 33;
    assert SplitChunk(x).value.1 == x[6..];
    FirstByte(x);
  }

  /** A scan of the table list selects exactly the entries asked for, in every store of well-formed keys
      and even for a public key that ends in 0xFF. */
  lemma {:induction false} ScanTableListExact(s: ScanTableList, x: Blob)
    requires WellFormed(x)
    ensures InRange(ScanTableListRange(s), x) <==> DecodeTableListKey(x).Ok? && Selects(s, DecodeTableListKey(x).value)
  {
    var p := ScanTableListPrefix(s);
    PrefixRangeExact(p, x);
    PrefixSelects(s, x);
    if s.Whole? {
      ExactWithoutTrailingMax(p, x);
    } else {
      var prefix := if s.ByStackID? then [] else s.prefix;
      if prefix == [] {
        assert p == TableListPrefix(s.id);
        if Overshoot(p, x) {
          TableListOvershoot(s.id, x);
        }
      } else {
        Utf8HasNoMax(prefix);
        assert p[|p| - 1] == prefix[|prefix| - 1];
        ExactWithoutTrailingMax(p, x);
      }
    }
  }

  /** The membership scan selects exactly the membership keys, so no user key or table entry is among them. */
  lemma {:induction false} MembershipScanExact(x: Blob)
    ensures InRange(BoundRange(Some(MEMBERSHIP_PREFIX), Some(MEMBERSHIP_UPPER)), x) <==> IsMembershipKey(x)
    ensures IsMembershipKey(x) ==> DecodeKey(x).Err? && DecodeTableListKey(x).Err?
  {
    CarriedShape(MEMBERSHIP_PREFIX);
    assert MEMBERSHIP_PREFIX[..1] + [0x4E] + Zeros(0) == MEMBERSHIP_UPPER;
    ExactWithoutTrailingMax(MEMBERSHIP_PREFIX, x);
    FirstByte(x);
  }

  // ---- Scans by inner-key prefix ----

  ghost predicate AllMax(s: Blob) {
    forall i | 0 <= i < |s| :: s[i] == 255
  }

  /** The last byte plus one, unless it is 0xFF. */
  function PlusOne(t: Blob): Blob
    requires t != []
  {
    if t[|t| - 1] == 255 then t else t[..|t| - 1] + [t[|t| - 1] + 1]
  }

  /** A prefix whose range reaches keys it should not: it ends in 0xFF and either the carry stays within
      the prefix, or it runs into the table name and yields another legal name, or into the length of an
      empty name with a zero byte to spare. */
  ghost predicate Leaky(table: TableName, prefix: Blob) {
    && prefix != [] && prefix[|prefix| - 1] == 255
    && (AllMax(prefix) ==> if table != [] then Utf8(PlusOne(table)) else |prefix| >= 2)
  }

  ghost predicate Matches(id: StackID, table: TableName, prefix: Blob, x: Blob) {
    DecodeKey(x).Ok? && DecodeKey(x).value.stackId == id && DecodeKey(x).value.tableName == table
    && prefix <= DecodeKey(x).value.innerKey
  }

  lemma {:induction false} InnerPrefixMatches(id: StackID, table: TableName, prefix: Blob, x: Blob)
    ensures ScanPrefix(ByInnerKeyPrefix(id, table, prefix)) <= x <==> Matches(id, table, prefix, x)
  {
    var t := TablePrefix(id, table);
    PrefixOfKey(id, table, x);
    if t + prefix <= x {
      assert t == (t + prefix)[..|t|] == x[..|t|];
      assert x[|t|..] == prefix + x[|t + prefix|..];
    }
    if Matches(id, table, prefix, x) {
      var inner := DecodeKey(x).value.innerKey;
      assert x == t + (prefix + inner[|prefix|..]) == (t + prefix) + inner[|prefix|..];
    }
  }

  lemma {:induction false} LastNonMaxOfConcat(a: Blob, b: Blob)
    ensures LastNonMax(a + b) == if LastNonMax(b) >= 0 then |a| + LastNonMax(b) else LastNonMax(a)
  {
    var s := a + b;
    var j := LastNonMax(s);
    assert forall i | |a| <= i < |s| :: s[i] == b[i - |a|];
    assert forall i | 0 <= i < |a| :: s[i] == a[i];
    assert j >= |a| ==> b[j - |a|] != 255;
    assert LastNonMax(b) >= 0 ==> s[|a| + LastNonMax(b)] != 255;
    assert LastNonMax(a) >= 0 ==> s[LastNonMax(a)] != 255;
  }

  /** The carry stays within the prefix: the range holds another key of the same table. */
  lemma {:induction false} LeakWithinTable(id: StackID, table: TableName, prefix: Blob) returns (x: Blob)
    requires prefix != [] && prefix[|prefix| - 1] == 255 && !AllMax(prefix)
    ensures WellFormed(x) && InRange(ScanRange(ByInnerKeyPrefix(id, table, prefix)), x)
    ensures !Matches(id, table, prefix, x)
  {
    var t := TablePrefix(id, table);
    var p := t + prefix;
    LastNonMaxOfConcat(t, prefix);
    CarriedShape(p);
    var j := LastNonMax(p);
    assert |t| <= j < |p| - 1;
    var u := Carried(p).value;
    x := u[..|p| - 1];
    assert IsCut(u, j, x);
    PrefixRangeExact(p, x);
    assert x[..|t|] == t;
    assert t <= x;
    PrefixOfKey(id, table, x);
    InnerPrefixMatches(id, table, prefix, x);
  }

  /** What overshoots when the prefix is all 0xFF: the table prefix plus one, then fewer zeros than the prefix is
      long. */
  lemma {:induction false} AllMaxOvershoot(id: StackID, table: TableName, prefix: Blob, x: Blob)
    requires prefix != [] && AllMax(prefix)
    ensures
      var t := TablePrefix(id, table);
      Overshoot(t + prefix, x) <==>
        exists r: nat :: r < |prefix| && x == PlusOne(t) + Zeros(r)
  {
    var t := TablePrefix(id, table);
    LastNonMaxOfConcat(t, prefix);
    var p, j := t + prefix, |t| - 1;
    assert LastNonMax(prefix) == -1 && LastNonMax(t) == j == LastNonMax(p);
    CarriedShape(p);
    var u := Carried(p).value;
    assert u == PlusOne(t) + Zeros(|prefix|);
    forall r: nat | r < |prefix|
      ensures u[..|t| + r] == PlusOne(t) + Zeros(r)
    {
    }
    if Overshoot(p, x) {
      var i: nat :| j < i < |u| && x == u[..i];
      assert x == PlusOne(t) + Zeros(i - |t|);
    }
    if r: nat :| r < |prefix| && x == PlusOne(t) + Zeros(r) {
      assert x == u[..|t| + r];
    }
  }

  /** The key that an all-0xFF prefix of a non-empty table name overshoots to. */
  lemma {:induction false} NextNameShape(id: StackID, table: TableName, r: nat)
    requires table != []
    ensures
      var t := TablePrefix(id, table);
      && |PlusOne(table)| == |table|
      && PlusOne(table) != table
      && PlusOne(t) + Zeros(r) == Encode3(StackIdToBytes(id), PlusOne(table), Zeros(r))
  {
    var t := TablePrefix(id, table);
    var next := PlusOne(table);
    assert t[|t| - 1] == table[|table| - 1];
    assert next[|table| - 1] == table[|table| - 1] + 1;
    assert PlusOne(t) == Chunk(StackIdToBytes(id)) + Chunk(next);
  }

  lemma {:induction false} EmptyNameShape(id: StackID, r: nat)
    ensures
      var t := TablePrefix(id, []);
      t[|t| - 1] == 0 && PlusOne(t) + Zeros(r) == Chunk(StackIdToBytes(id)) + ([1] + Zeros(r))
  {
    var t := TablePrefix(id, []);
    assert t == Chunk(StackIdToBytes(id)) + [0];
    assert t[..|t| - 1] == Chunk(StackIdToBytes(id));
    assert PlusOne(t) == t[..|t| - 1] + [1];
  }

  /** An all-0xFF prefix overshoots to a well-formed key exactly when it is leaky. */
  lemma {:induction false} AllMaxLeak(id: StackID, table: TableName, prefix: Blob, r: nat)
    requires prefix != [] && AllMax(prefix)
    ensures
      var t := TablePrefix(id, table);
      var x := PlusOne(t) + Zeros(r);
      && (WellFormed(x) <==> if table != [] then Utf8(PlusOne(table)) else r >= 1)
      && (WellFormed(x) ==> !Matches(id, table, prefix, x))
  {
    var t := TablePrefix(id, table);
    var x := PlusOne(t) + Zeros(r);
    var idBytes := StackIdToBytes(id);
    StackIdRoundTrip(id, []);
    assert x[0] == t[0] == 33;
    FirstByte(x);
    if table != [] {
      NextNameShape(id, table, r);
      Encode3RoundTrip(idBytes, PlusOne(table), Zeros(r));
    } else {
      EmptyNameShape(id, r);
      ChunkRoundTrip(idBytes, [1] + Zeros(r));
      if r >= 1 {
        assert ([1] + Zeros(r))[1..2] == [0];
        assert Utf8([0]) by {
          assert [0][1..] == [];
        }
      }
    }
  }

  /** A scan by inner-key prefix selects exactly the matching keys of every well-formed store if and only
      if the prefix is not leaky. */
  lemma {:induction false} ScanByInnerKeyPrefixExact(id: StackID, table: TableName, prefix: Blob)
    ensures
      (forall x: Blob :: WellFormed(x) ==>
        (InRange(ScanRange(ByInnerKeyPrefix(id, table, prefix)), x) <==> Matches(id, table, prefix, x)))
      <==> !Leaky(table, prefix)
  {
    if Leaky(table, prefix) {
      if !AllMax(prefix) {
        var x := LeakWithinTable(id, table, prefix);
      } else {
        var r := if table != [] then 0 else 1;
        AllMaxLeak(id, table, prefix, r);
        var t := TablePrefix(id, table);
        var x := PlusOne(t) + Zeros(r);
        AllMaxOvershoot(id, table, prefix, x);
        PrefixRangeExact(t + prefix, x);
        assert WellFormed(x) && InRange(ScanRange(ByInnerKeyPrefix(id, table, prefix)), x)
          && !Matches(id, table, prefix, x);
      }
    } else {
      forall x: Blob | WellFormed(x)
        ensures InRange(ScanRange(ByInnerKeyPrefix(id, table, prefix)), x) <==> Matches(id, table, prefix, x)
      {
        NotLeakyExact(id, table, prefix, x);
      }
    }
  }

  lemma {:induction false} NotLeakyExact(id: StackID, table: TableName, prefix: Blob, x: Blob)
    requires WellFormed(x) && !Leaky(table, prefix)
    ensures InRange(ScanRange(ByInnerKeyPrefix(id, table, prefix)), x) <==> Matches(id, table, prefix, x)
  {
    var t := TablePrefix(id, table);
    var p := t + prefix;
    InnerPrefixMatches(id, table, prefix, x);
    PrefixRangeExact(p, x);
    if prefix == [] || prefix[|prefix| - 1] != 255 {
      assert p[|p| - 1] == if prefix == [] then t[|t| - 1] else prefix[|prefix| - 1];
      ExactWithoutTrailingMax(p, x);
    } else {
      TightPrefix(id, table, prefix, x);
    }
  }

  lemma {:induction false} TightPrefix(id: StackID, table: TableName, prefix: Blob, x: Blob)
    requires WellFormed(x) && !Leaky(table, prefix)
    requires prefix != [] && prefix[|prefix| - 1] == 255
    ensures !Overshoot(TablePrefix(id, table) + prefix, x)
  {
    AllMaxOvershoot(id, table, prefix, x);
    if r: nat :| r < |prefix| && x == PlusOne(TablePrefix(id, table)) + Zeros(r) {
      AllMaxLeak(id, table, prefix, r);
    }
  }
}
