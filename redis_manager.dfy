/**
 * RedisManager: the gate between the message bus and the state database.
 * It keeps the set of enabled tables, refuses writes to the others, joins
 * key parts into the row key, deletes keys, flushes tables, and applies the
 * enable/disable notifications of the configuration database.
 *
 * The database client is not part of this model: every call the manager
 * makes into it is recorded, in order, as a `StoreOp` in `ops`.
 */
module Redis {
  import opened Strings

  const TableNeighbor: string := "BGP_NEIGHBOR_TABLE"
  const TableRibIn: string := "BGP_RIB_IN_TABLE"
  const TableRibOut: string := "BGP_RIB_OUT_TABLE"
  const NeighborPrefix: string := "BGP_NEIGHBOR"

  /** The key separator the database configuration supplies; taken to be non-empty. */
  type Separator = s: string | |s| > 0 witness "|"

  type FieldValue = (string, string)

  /** One call into the state database. */
  datatype StoreOp =
    | Set(table: string, key: string, fields: seq<FieldValue>)  // Table::set: fields written into a row's hash
    | Del(keys: seq<string>)                                     // DBConnector::del of raw keys
    | Flush(table: string)                                       // every key enumerated under a table, deleted

  /** The row key of a table as the database lays it out: table, separator, key. */
  function StoreKey(table: string, sep: string, key: string): string {
    table + sep + key
  }

  /** A row of the state database: a hash from field name to value. */
  type Row = map<string, string>

  /** The state database: rows by their raw key. */
  type Store = map<string, Row>

  /** `fields` writes to the hash `row` one field at a time, in order, so the
      last value written to a field wins and fields not written stay. */
  function Merge(row: Row, fields: seq<FieldValue>): Row
    decreases |fields|
  {
    if fields == [] then row
    else Merge(row, fields[..|fields| - 1])[fields[|fields| - 1].0 := fields[|fields| - 1].1]
  }

  predicate Writes(fields: seq<FieldValue>, name: string) {
    exists i :: 0 <= i < |fields| && fields[i].0 == name
  }

  /** Entry `i` is the last one in `fields` that writes its field. */
  predicate LastWrite(fields: seq<FieldValue>, i: int)
    requires 0 <= i < |fields|
  {
    forall j :: i < j < |fields| ==> fields[j].0 != fields[i].0
  }

  /** The merged row has the fields of the old row and the written ones; a
      written field holds its last value; every other field keeps its old value. */
  lemma {:induction false} MergeLastWins(row: Row, fields: seq<FieldValue>)
    ensures forall name :: name in Merge(row, fields) <==> name in row || Writes(fields, name)
    ensures forall i :: 0 <= i < |fields| && LastWrite(fields, i) ==>
      fields[i].0 in Merge(row, fields) && Merge(row, fields)[fields[i].0] == fields[i].1
    ensures forall name :: name in row && !Writes(fields, name) ==> Merge(row, fields)[name] == row[name]
    decreases |fields|
  {
    if fields != [] {
      var init := fields[..|fields| - 1];
      var last := fields[|fields| - 1];
      MergeLastWins(row, init);
      forall name ensures Writes(fields, name) <==> Writes(init, name) || last.0 == name {
        if Writes(fields, name) && last.0 != name {
          var i :| 0 <= i < |fields| && fields[i].0 == name;
          assert init[i] == fields[i];
        }
        if Writes(init, name) {
          var i :| 0 <= i < |init| && init[i].0 == name;
          assert fields[i] == init[i];
        }
      }
      forall i | 0 <= i < |fields| && LastWrite(fields, i)
        ensures fields[i].0 in Merge(row, fields) && Merge(row, fields)[fields[i].0] == fields[i].1
      {
        if i < |fields| - 1 {
          assert fields[i] == init[i];
          assert LastWrite(init, i) by {
            forall j | i < j < |init| ensures init[j].0 != init[i].0 {
              assert init[j] == fields[j];
            }
          }
        }
      }
    }
  }

  lemma MergeSets(row: Row, fields: seq<FieldValue>, i: int)
    requires 0 <= i < |fields| && LastWrite(fields, i)
    ensures fields[i].0 in Merge(row, fields) && Merge(row, fields)[fields[i].0] == fields[i].1
  {
    MergeLastWins(row, fields);
  }

  lemma MergeKeeps(row: Row, fields: seq<FieldValue>, name: string)
    requires name in row && !Writes(fields, name)
    ensures name in Merge(row, fields) && Merge(row, fields)[name] == row[name]
  {
    MergeLastWins(row, fields);
  }

  /** Every field written has a last write. */
  lemma {:induction false} LastWriteExists(fields: seq<FieldValue>, name: string)
    requires Writes(fields, name)
    ensures exists i :: 0 <= i < |fields| && fields[i].0 == name && LastWrite(fields, i)
    decreases |fields|
  {
    var n := |fields| - 1;
    if fields[n].0 == name {
      assert LastWrite(fields, n);
    } else {
      var init := fields[..n];
      var k :| 0 <= k < |fields| && fields[k].0 == name;
      assert init[k] == fields[k];
      LastWriteExists(init, name);
      var i :| 0 <= i < |init| && init[i].0 == name && LastWrite(init, i);
      assert fields[i] == init[i];
      assert LastWrite(fields, i) by {
        forall j | i < j < |fields| ensures fields[j].0 != fields[i].0 {
          if j < n {
            assert fields[j] == init[j];
          }
        }
      }
    }
  }

  /** Writing the same fields a second time leaves the row as the first write left it. */
  lemma MergeTwice(row: Row, fields: seq<FieldValue>)
    ensures Merge(Merge(row, fields), fields) == Merge(row, fields)
  {
    var once := Merge(row, fields);
    var twice := Merge(once, fields);
    MergeLastWins(row, fields);
    MergeLastWins(once, fields);
    forall name | name in twice ensures name in once && twice[name] == once[name] {
      if Writes(fields, name) {
        LastWriteExists(fields, name);
        var i :| 0 <= i < |fields| && fields[i].0 == name && LastWrite(fields, i);
      }
    }
    assert twice.Keys == once.Keys;
  }

  /** Writing `a` then `b` is writing `a + b`. */
  lemma {:induction false} MergeAppend(row: Row, a: seq<FieldValue>, b: seq<FieldValue>)
    ensures Merge(row, a + b) == Merge(Merge(row, a), b)
    decreases |b|
  {
    if b == [] {
      assert a + b == a;
    } else {
      var b' := b[..|b| - 1];
      assert (a + b)[..|a + b| - 1] == a + b';
      MergeAppend(row, a, b');
    }
  }

  /** `key` is one of the keys a table enumerates: it starts with the table name and the separator. */
  predicate InTable(key: string, table: string, sep: string) {
    |table + sep| <= |key| && key[..|table + sep|] == table + sep
  }

  predicate InSomeTable(key: string, tables: seq<string>, sep: string) {
    exists t :: t in tables && InTable(key, t, sep)
  }

  /** The effect of one call on the database. */
  function Apply(db: Store, sep: string, op: StoreOp): Store {
    match op
    case Set(t, k, fs) =>
      var key := StoreKey(t, sep, k);
      db[key := Merge(if key in db then db[key] else map[], fs)]
    case Del(keys) => map k | k in db && k !in keys :: db[k]
    case Flush(t) => map k | k in db && !InTable(k, t, sep) :: db[k]
  }

  /** The effect of a sequence of calls, in order. */
  function ApplyAll(db: Store, sep: string, ops: seq<StoreOp>): Store
    decreases |ops|
  {
    if ops == [] then db else Apply(ApplyAll(db, sep, ops[..|ops| - 1]), sep, ops[|ops| - 1])
  }

  lemma ApplyTwo(db: Store, sep: string, a: StoreOp, b: StoreOp)
    ensures ApplyAll(db, sep, [a, b]) == Apply(Apply(db, sep, a), sep, b)
  {
    assert [a, b][..1] == [a];
    assert [a][..0] == [];
    assert ApplyAll(db, sep, []) == db;
    assert ApplyAll(db, sep, [a]) == Apply(db, sep, a);
  }

  /** What the key loop of WriteBMPTable builds: every part followed by the separator. */
  function AppendSeparated(keys: seq<string>, sep: string): (s: string)
    ensures |keys| > 0 ==> |s| >= |sep|
    decreases |keys|
  {
    if keys == [] then ""
    else AppendSeparated(keys[..|keys| - 1], sep) + keys[|keys| - 1] + sep
  }

  /** The key WriteBMPTable writes: the appended parts with the last character erased. */
  function FullKey(keys: seq<string>, sep: string): string
    requires AppendSeparated(keys, sep) != []
  {
    var s := AppendSeparated(keys, sep);
    s[..|s| - 1]
  }

  /** The appended parts are the joined key followed by one separator. */
  lemma {:induction false} AppendSeparatedIsJoin(keys: seq<string>, sep: string)
    requires |keys| > 0
    ensures AppendSeparated(keys, sep) == JoinKey(keys, sep) + sep
    decreases |keys|
  {
    if |keys| > 1 {
      var init := keys[..|keys| - 1];
      assert AppendSeparated(keys, sep) == AppendSeparated(init, sep) + keys[|keys| - 1] + sep;
      AppendSeparatedIsJoin(init, sep);
    } else {
      assert keys[..0] == [];
    }
  }

  /** Erasing one character gives the joined key exactly when the separator
      is one character long. */
  lemma FullKeyIsJoinIff(keys: seq<string>, sep: string)
    requires |keys| > 0 && AppendSeparated(keys, sep) != []
    ensures FullKey(keys, sep) == JoinKey(keys, sep) <==> |sep| == 1
  {
    AppendSeparatedIsJoin(keys, sep);
    var j := JoinKey(keys, sep);
    assert |FullKey(keys, sep)| == |j| + |sep| - 1;
    if |sep| == 1 {
      assert AppendSeparated(keys, sep)[..|j|] == j;
    }
  }

  /** The key loop of WriteBMPTable, then the erase of the last character. */
  method BuildFullKey(keys: seq<string>, sep: string) returns (fullKey: string)
    requires AppendSeparated(keys, sep) != []
    ensures fullKey == FullKey(keys, sep)
    ensures |keys| > 0 && |sep| == 1 ==> fullKey == JoinKey(keys, sep)
  {
    fullKey := "";
    var i := 0;
    while i < |keys|
      invariant 0 <= i <= |keys|
      invariant fullKey == AppendSeparated(keys[..i], sep)
    {
      assert keys[..i + 1][..i] == keys[..i];
      fullKey := fullKey + keys[i];
      fullKey := fullKey + sep;
      i := i + 1;
    }
    assert keys[..|keys|] == keys;
    fullKey := fullKey[..|fullKey| - 1];
    if |keys| > 0 && |sep| == 1 {
      FullKeyIsJoinIff(keys, sep);
    }
  }

  /** `k` flushes of one table, one per disabling notification. */
  function Flushes(table: string, k: nat): seq<StoreOp> {
    seq(k, _ => Flush(table))
  }

  /** One flush per table of `tables`, in that order. */
  function FlushEach(tables: seq<string>): seq<StoreOp> {
    seq(|tables|, i requires 0 <= i < |tables| => Flush(tables[i]))
  }

  /** Flushing a list of tables removes exactly the rows under those tables
      and leaves every other row as it was. */
  lemma {:induction false} FlushEachClears(db: Store, sep: string, tables: seq<string>)
    ensures forall k :: k in ApplyAll(db, sep, FlushEach(tables)) <==> k in db && !InSomeTable(k, tables, sep)
    ensures forall k :: k in ApplyAll(db, sep, FlushEach(tables)) ==> ApplyAll(db, sep, FlushEach(tables))[k] == db[k]
    decreases |tables|
  {
    if tables != [] {
      var init := tables[..|tables| - 1];
      var last := tables[|tables| - 1];
      assert FlushEach(tables)[..|tables| - 1] == FlushEach(init);
      FlushEachClears(db, sep, init);
      var before := ApplyAll(db, sep, FlushEach(init));
      var after := ApplyAll(db, sep, FlushEach(tables));
      assert after == Apply(before, sep, Flush(last));
      forall k ensures k in after <==> k in db && !InSomeTable(k, tables, sep) {
        if InSomeTable(k, tables, sep) {
          var t :| t in tables && InTable(k, t, sep);
          if t != last {
            assert t in init;
          }
        }
        if InSomeTable(k, init, sep) {
          var t :| t in init && InTable(k, t, sep);
          assert t in tables;
        }
      }
    }
  }

  predicate Distinct(s: seq<string>) {
    forall i, j :: 0 <= i < j < |s| ==> s[i] != s[j]
  }

  lemma RemovingOneMore(all: set<string>, pending: set<string>, t: string)
    requires pending <= all && t in pending
    ensures |all - (pending - {t})| == |all - pending| + 1
  {
    assert all - (pending - {t}) == (all - pending) + {t};
  }

  /** A configuration notification as popped from the subscription: the
      first and second components are dispatched on as they come. */
  datatype ConfigNotification = ConfigNotification(first: string, second: string, fieldValues: seq<FieldValue>)

  /** The outcome of one `select` on the configuration subscription. */
  datatype SelectResult = SelectError | SelectTimeout | SelectReady(notification: ConfigNotification)

  predicate EnablesTable(n: ConfigNotification) {
    n.first == "SET" && n.second == "true"
  }

  predicate DisablesTable(n: ConfigNotification) {
    n.first == "SET" && n.second != "true"
  }

  /** Whether the watched table is enabled after the notifications in `events`,
      having been enabled (`was`) before them. */
  function EnabledAfter(was: bool, events: seq<SelectResult>): bool
    decreases |events|
  {
    if events == [] then was
    else
      var prev := EnabledAfter(was, events[..|events| - 1]);
      match events[|events| - 1]
      case SelectReady(n) =>
        if EnablesTable(n) then true else if DisablesTable(n) then false else prev
      case _ => prev
  }

  /** The number of disabling notifications in `events`. */
  function DisableCount(events: seq<SelectResult>): nat
    decreases |events|
  {
    if events == [] then 0
    else
      DisableCount(events[..|events| - 1])
      + (match events[|events| - 1]
         case SelectReady(n) => if DisablesTable(n) then 1 else 0
         case _ => 0)
  }

  /** The table ends disabled whenever a disabling notification comes after
      the last enabling one, and enabled in the opposite case. */
  lemma {:induction false} LastSetDecides(was: bool, events: seq<SelectResult>, k: nat)
    requires k < |events| && events[k].SelectReady?
    requires EnablesTable(events[k].notification) || DisablesTable(events[k].notification)
    requires forall j :: k < j < |events| && events[j].SelectReady? ==>
               !EnablesTable(events[j].notification) && !DisablesTable(events[j].notification)
    ensures EnabledAfter(was, events) == EnablesTable(events[k].notification)
    decreases |events|
  {
    if k < |events| - 1 {
      var init := events[..|events| - 1];
      assert forall j :: k < j < |init| && init[j].SelectReady? ==>
               !EnablesTable(init[j].notification) && !DisablesTable(init[j].notification) by {
        forall j | k < j < |init| && init[j].SelectReady?
          ensures !EnablesTable(init[j].notification) && !DisablesTable(init[j].notification)
        {
          assert init[j] == events[j];
        }
      }
      LastSetDecides(was, init, k);
    }
  }

  class RedisManager {
    const separator: Separator
    var enabledTables: set<string>
    var ops: seq<StoreOp>
    var disconnected: bool   // DisconnectBMP closed the router's socket

    constructor (sep: Separator)
      ensures separator == sep && enabledTables == {} && ops == [] && !disconnected
    {
      separator := sep;
      enabledTables := {};
      ops := [];
      disconnected := false;
    }

    /** Writes `fields` at the row joined from `keys`, if `table` is enabled. */
    method WriteBMPTable(table: string, keys: seq<string>, fields: seq<FieldValue>) returns (ok: bool)
      requires table in enabledTables ==> |keys| > 0
      modifies this
      ensures enabledTables == old(enabledTables) && disconnected == old(disconnected)
      ensures ok <==> table in enabledTables
      ensures ok ==> ops == old(ops) + [Set(table, FullKey(keys, separator), fields)]
      ensures !ok ==> ops == old(ops)
    {
      if table !in enabledTables {
        return false;
      }
      var fullKey := BuildFullKey(keys, separator);
      ops := ops + [Set(table, fullKey, fields)];
      ok := true;
    }

    /** Deletes the given raw keys, whatever tables they belong to. */
    method RemoveBMPTable(keys: seq<string>) returns (ok: bool)
      modifies this
      ensures ok
      ensures ops == old(ops) + [Del(keys)]
      ensures enabledTables == old(enabledTables) && disconnected == old(disconnected)
    {
      ops := ops + [Del(keys)];
      ok := true;
    }

    /** Closes the router's socket. */
    method DisconnectBMP()
      modifies this
      ensures disconnected
      ensures enabledTables == old(enabledTables) && ops == old(ops)
    {
      disconnected := true;
    }

    method EnableTable(table: string) returns (ok: bool)
      modifies this
      ensures ok
      ensures enabledTables == old(enabledTables) + {table}
      ensures table in old(enabledTables) ==> enabledTables == old(enabledTables)
      ensures ops == old(ops) && disconnected == old(disconnected)
    {
      enabledTables := enabledTables + {table};
      ok := true;
    }

    method DisableTable(table: string) returns (ok: bool)
      modifies this
      ensures ok
      ensures enabledTables == old(enabledTables) - {table}
      ensures ops == old(ops) + [Flush(table)]
      ensures disconnected == old(disconnected)
    {
      enabledTables := enabledTables - {table};
      ok := ResetBMPTable(table);
    }

    /** Deletes every key under `table`, enabled or not. */
    method ResetBMPTable(table: string) returns (ok: bool)
      modifies this
      ensures ok
      ensures ops == old(ops) + [Flush(table)]
      ensures enabledTables == old(enabledTables) && disconnected == old(disconnected)
    {
      ops := ops + [Flush(table)];
      ok := true;
    }

    /** Resets each enabled table once, in the set's own order, and keeps
        them enabled; `order` is the order in which they were reset. */
    method ResetAllTables() returns (ghost order: seq<string>)
      modifies this
      ensures enabledTables == old(enabledTables) && disconnected == old(disconnected)
      ensures ops == old(ops) + FlushEach(order)
      ensures forall t :: t in order <==> t in enabledTables
      ensures Distinct(order) && |order| == |enabledTables|
    {
      var pending := enabledTables;
      order := [];
      while pending != {}
        invariant pending <= enabledTables
        invariant enabledTables == old(enabledTables) && disconnected == old(disconnected)
        invariant ops == old(ops) + FlushEach(order)
        invariant forall t :: t in order <==> t in enabledTables - pending
        invariant Distinct(order)
        invariant |order| == |enabledTables - pending|
        decreases pending
      {
        var table :| table in pending;
        var _ := ResetBMPTable(table);
        RemovingOneMore(enabledTables, pending, table);
        assert FlushEach(order + [table]) == FlushEach(order) + [Flush(table)];
        order := order + [table];
        pending := pending - {table};
      }
    }

    /** The body of SubscriberWorker's loop for one popped notification. */
    method HandleConfig(table: string, n: ConfigNotification)
      modifies this
      ensures EnablesTable(n) ==>
        enabledTables == old(enabledTables) + {table} && ops == old(ops) && disconnected == old(disconnected)
      ensures DisablesTable(n) ==>
        enabledTables == old(enabledTables) - {table} && ops == old(ops) + [Flush(table)] && disconnected
      ensures n.first != "SET" ==>
        enabledTables == old(enabledTables) && ops == old(ops) && disconnected == old(disconnected)
    {
      if n.first == "SET" {
        if n.second == "true" {
          var _ := EnableTable(table);
        } else {
          var _ := DisableTable(table);
          DisconnectBMP();
        }
      } else if n.first == "DEL" {
        // the configuration is not meant to be deleted: only logged
      }
    }

    /** SubscriberWorker for `table`, over the outcomes of successive `select` calls. */
    method SubscriberWorker(table: string, events: seq<SelectResult>)
      modifies this
      ensures (table in enabledTables) == EnabledAfter(table in old(enabledTables), events)
      ensures enabledTables - {table} == old(enabledTables) - {table}
      ensures ops == old(ops) + Flushes(table, DisableCount(events))
      ensures disconnected == (old(disconnected) || DisableCount(events) > 0)
    {
      var i := 0;
      while i < |events|
        invariant 0 <= i <= |events|
        invariant (table in enabledTables) == EnabledAfter(table in old(enabledTables), events[..i])
        invariant enabledTables - {table} == old(enabledTables) - {table}
        invariant ops == old(ops) + Flushes(table, DisableCount(events[..i]))
        invariant disconnected == (old(disconnected) || DisableCount(events[..i]) > 0)
      {
        assert events[..i + 1][..i] == events[..i];
        match events[i] {
          case SelectError =>
          case SelectTimeout =>
          case SelectReady(n) =>
            HandleConfig(table, n);
            assert Flushes(table, DisableCount(events[..i + 1]))
                == Flushes(table, DisableCount(events[..i])) + (if DisablesTable(n) then [Flush(table)] else []);
        }
        i := i + 1;
      }
      assert events[..|events|] == events;
    }
  }
}
