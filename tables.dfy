/**
 * The table (seat) handlers: create a table with a unique number, list the
 * tables by number, read one, change some of its fields, retire it (a soft
 * delete that only sets its status to "inactive"), and list the orders
 * placed at it. Every handler requires a logged-in caller; the `:id` path
 * parameter is read with `strconv.ParseUint(s, 10, 32)`.
 */
module Tables {
  import opened Models
  import opened Store
  import Params
  import Seqs
  import Orders

  datatype TableOrders = TableOrders(table: Table, orders: seq<Order>)

  /** The table with this primary key (`First(&table, id)`). */
  function IndexOfTable(tables: seq<Table>, id: int): (k: Option<nat>)
    ensures k.Some? ==> k.value < |tables| && tables[k.value].id == id
    ensures k.None? <==> forall i :: 0 <= i < |tables| ==> tables[i].id != id
  {
    if tables == [] then None
    else if tables[0].id == id then Some(0)
    else match IndexOfTable(tables[1..], id)
      case None => None
      case Some(k) => Some(k + 1)
  }

  /** The table with this number (`table_number = ?`), if any. */
  function IndexOfNumber(tables: seq<Table>, n: int): (k: Option<nat>)
    ensures k.Some? ==> k.value < |tables| && tables[k.value].tableNumber == n
    ensures k.None? <==> forall i :: 0 <= i < |tables| ==> tables[i].tableNumber != n
  {
    if tables == [] then None
    else if tables[0].tableNumber == n then Some(0)
    else match IndexOfNumber(tables[1..], n)
      case None => None
      case Some(k) => Some(k + 1)
  }

  /** With unique keys, looking a table up by its own key finds that very row. */
  lemma {:induction false} TableLookup(tables: seq<Table>, next: nat, k: nat)
    requires TablesValid(tables, next) && k < |tables|
    ensures IndexOfTable(tables, tables[k].id) == Some(k)
  {
  }

  /** Every stored table can be read back through the URL its key is written into. */
  lemma ReadBack(tables: seq<Table>, next: nat, k: nat, uid: nat)
    requires TablesValid(tables, next) && k < |tables| && tables[k].id <= Params.MaxUint32
    ensures GetTableByID(Some(uid), Params.Itoa(tables[k].id), tables) == Ok(tables[k])
  {
    Params.ParseUint32Itoa(tables[k].id);
    TableLookup(tables, next, k);
  }

  function NumberKey(t: Table): int {
    t.tableNumber
  }

  /** GetTables: every table, in ascending table number, for any logged-in caller. */
  function GetTables(userId: Option<nat>, tables: seq<Table>): (r: Response<seq<Table>>)
    ensures r.Ok? <==> userId.Some?
    ensures !r.Ok? ==> r == Unauthorized
    ensures r.Ok? ==> multiset(r.value) == multiset(tables)
    ensures r.Ok? ==> forall i, j :: 0 <= i < j < |r.value| ==> r.value[i].tableNumber <= r.value[j].tableNumber
  {
    if userId.None? then Unauthorized
    else
      var sorted := Seqs.SortBy(tables, NumberKey);
      assert forall i, j :: 0 <= i < j < |sorted| ==> NumberKey(sorted[i]) <= NumberKey(sorted[j]);
      Ok(sorted)
  }

  /** With unique numbers, the sorted listing is strictly ascending. */
  lemma GetTablesStrictlyAscending(userId: nat, tables: seq<Table>, next: nat)
    requires TablesValid(tables, next)
    ensures var r := GetTables(Some(userId), tables).value;
            forall i, j :: 0 <= i < j < |r| ==> r[i].tableNumber < r[j].tableNumber
  {
    var r := GetTables(Some(userId), tables).value;
    forall i, j | 0 <= i < j < |r| ensures r[i].tableNumber < r[j].tableNumber {
      if r[i] == r[j] {
        Seqs.TwoOccurrences(r, i, j);
        DuplicateRow(tables, next, r[i]);
      } else {
        assert r[i] in multiset(tables) && r[j] in multiset(tables);
        DistinctNumbers(tables, next, r[i], r[j]);
      }
    }
  }

  /** Two different rows of a valid store have different numbers. */
  lemma DistinctNumbers(tables: seq<Table>, next: nat, x: Table, y: Table)
    requires TablesValid(tables, next) && x in tables && y in tables && x != y
    ensures x.tableNumber != y.tableNumber
  {
    var a :| 0 <= a < |tables| && tables[a] == x;
    var b :| 0 <= b < |tables| && tables[b] == y;
    if a < b {
      assert tables[a].tableNumber != tables[b].tableNumber;
    } else {
      assert tables[b].tableNumber != tables[a].tableNumber;
    }
  }

  /** No row occurs twice in a store with unique keys. */
  lemma DuplicateRow(tables: seq<Table>, next: nat, t: Table)
    requires TablesValid(tables, next)
    ensures multiset(tables)[t] <= 1
  {
    assert Seqs.Distinct(tables) by {
      forall i, j | 0 <= i < j < |tables| ensures tables[i] != tables[j] {
        assert tables[i].id != tables[j].id;
      }
    }
    Seqs.DistinctCount(tables, t);
  }

  /** GetTableByID: a malformed id is a bad request, an unknown one is not found. */
  function GetTableByID(userId: Option<nat>, idParam: string, tables: seq<Table>): (r: Response<Table>)
    ensures userId.None? <==> r == Unauthorized
    ensures userId.Some? && Params.ParseUint32(idParam).None? <==> r == BadRequest
    ensures r == NotFound <==> userId.Some? && Params.ParseUint32(idParam).Some?
                               && forall t :: t in tables ==> t.id != Params.ParseUint32(idParam).value
    ensures r.Ok? || r == Unauthorized || r == BadRequest || r == NotFound
    ensures r.Ok? ==> r.value in tables && Params.ParseUint32(idParam) == Some(r.value.id)
  {
    if userId.None? then Unauthorized
    else match Params.ParseUint32(idParam)
      case None => BadRequest
      case Some(id) =>
        match IndexOfTable(tables, id)
        case None => NotFound
        case Some(k) => Ok(tables[k])
  }

  /** The orders placed at table `tid` (`table_id = ?`), in store order. */
  function OrdersAt(orders: seq<Order>, tid: nat): (r: seq<Order>)
    ensures forall o :: o in r <==> o in orders && o.tableId == Some(tid)
    ensures |r| <= |orders|
  {
    if orders == [] then []
    else
      var last := orders[|orders| - 1];
      assert orders == orders[..|orders| - 1] + [last];
      OrdersAt(orders[..|orders| - 1], tid) + if last.tableId == Some(tid) then [last] else []
  }

  /** GetTableOrders: the table and the orders placed at it, newest first. */
  function GetTableOrders(userId: Option<nat>, idParam: string, tables: seq<Table>, orders: seq<Order>)
    : (r: Response<TableOrders>)
    ensures userId.None? <==> r == Unauthorized
    ensures userId.Some? && Params.ParseUint32(idParam).None? <==> r == BadRequest
    ensures r == NotFound <==> userId.Some? && Params.ParseUint32(idParam).Some?
                               && forall t :: t in tables ==> t.id != Params.ParseUint32(idParam).value
    ensures r.Ok? || r == Unauthorized || r == BadRequest || r == NotFound
    ensures r.Ok? ==> GetTableByID(userId, idParam, tables) == Ok(r.value.table)
    ensures r.Ok? ==> multiset(r.value.orders) == multiset(OrdersAt(orders, r.value.table.id))
    ensures r.Ok? ==> forall o :: o in r.value.orders <==> o in orders && o.tableId == Some(r.value.table.id)
    ensures r.Ok? ==> forall i, j :: 0 <= i < j < |r.value.orders| ==>
                        r.value.orders[i].createdAt >= r.value.orders[j].createdAt
  {
    match GetTableByID(userId, idParam, tables)
    case Ok(t) =>
      var os := Orders.NewestFirst(OrdersAt(orders, t.id));
      assert forall o :: o in os <==> o in multiset(os);
      Ok(TableOrders(t, os))
    case Unauthorized => Unauthorized
    case BadRequest => BadRequest
    case _ => NotFound
  }

  /** Adding a table with the next key and an unused number keeps both keys and numbers unique. */
  lemma AppendTableValid(tables: seq<Table>, next: nat, t: Table)
    requires TablesValid(tables, next) && t.id == next
    requires forall i :: 0 <= i < |tables| ==> tables[i].tableNumber != t.tableNumber
    ensures TablesValid(tables + [t], next + 1)
  {
    var r := tables + [t];
    forall i, j | 0 <= i < j < |r| ensures r[i].id != r[j].id && r[i].tableNumber != r[j].tableNumber {
      if j == |tables| {
        assert r[i] == tables[i];
      }
    }
  }

  /** A table appended under the next key with an unused number keeps the store valid and reads back. */
  lemma AppendTable(tables: seq<Table>, next: nat, t: Table, uid: nat)
    requires TablesValid(tables, next) && t.id == next
    requires forall i :: 0 <= i < |tables| ==> tables[i].tableNumber != t.tableNumber
    ensures TablesValid(tables + [t], next + 1)
    ensures t.id <= Params.MaxUint32 ==> GetTableByID(Some(uid), Params.Itoa(t.id), tables + [t]) == Ok(t)
  {
    AppendTableValid(tables, next, t);
    if t.id <= Params.MaxUint32 {
      ReadBack(tables + [t], next + 1, |tables|, uid);
    }
  }

  /**
   * CreateTable: table number 0 fails the `required` rule; an empty status
   * becomes "active"; a number already in use is a conflict. Otherwise the new
   * table gets the next key, and it can be read back by that key.
   */
  method CreateTable(db: Db, userId: Option<nat>, tableNumber: int, capacity: int, status: string)
    returns (r: Response<Table>)
    requires db.Valid()
    modifies db`tables, db`nextTableId
    ensures db.Valid()
    ensures userId.None? <==> r == Unauthorized
    ensures userId.Some? && tableNumber == 0 <==> r == BadRequest
    ensures r == Conflict <==> userId.Some? && tableNumber != 0 && IndexOfNumber(old(db.tables), tableNumber).Some?
    ensures r.Ok? || r == Unauthorized || r == BadRequest || r == Conflict
    ensures !r.Ok? ==> db.tables == old(db.tables) && db.nextTableId == old(db.nextTableId)
    ensures r.Ok? ==>
      && r.value == Table(old(db.nextTableId), tableNumber, capacity, if status == "" then "active" else status)
      && db.tables == old(db.tables) + [r.value]
      && db.nextTableId == old(db.nextTableId) + 1
    ensures r.Ok? && r.value.id <= Params.MaxUint32 ==>
      GetTableByID(userId, Params.Itoa(r.value.id), db.tables) == Ok(r.value)
  {
    if userId.None? {
      return Unauthorized;
    }
    if tableNumber == 0 {
      return BadRequest;
    }
    var st := if status == "" then "active" else status;
    if IndexOfNumber(db.tables, tableNumber).Some? {
      return Conflict;
    }
    var table := Table(db.nextTableId, tableNumber, capacity, st);
    AppendTable(db.tables, db.nextTableId, table, userId.value);
    db.tables, db.nextTableId := db.tables + [table], db.nextTableId + 1;
    return Ok(table);
  }

  /** The columns an update names take their new values; the others keep theirs. */
  function ApplyUpdate(t: Table, tableNumber: Option<int>, capacity: Option<int>, status: Option<string>)
    : (u: Table)
    ensures u.id == t.id
    ensures u.tableNumber == (if tableNumber.Some? then tableNumber.value else t.tableNumber)
    ensures u.capacity == (if capacity.Some? then capacity.value else t.capacity)
    ensures u.status == (if status.Some? then status.value else t.status)
  {
    var t1 := if tableNumber.Some? then t.(tableNumber := tableNumber.value) else t;
    var t2 := if capacity.Some? then t1.(capacity := capacity.value) else t1;
    if status.Some? then t2.(status := status.value) else t2
  }

  /** An update that names no column changes nothing, and applying one twice is applying it once. */
  lemma ApplyUpdateIdentity(t: Table, tableNumber: Option<int>, capacity: Option<int>, status: Option<string>)
    ensures ApplyUpdate(t, None, None, None) == t
    ensures ApplyUpdate(ApplyUpdate(t, tableNumber, capacity, status), tableNumber, capacity, status)
            == ApplyUpdate(t, tableNumber, capacity, status)
  {
  }

  /** Replacing row `k` by one with the same key and a number no other row uses keeps the store valid. */
  lemma ReplaceTableValid(tables: seq<Table>, next: nat, k: nat, t: Table)
    requires TablesValid(tables, next) && k < |tables| && t.id == tables[k].id
    requires forall i :: 0 <= i < |tables| && i != k ==> tables[i].tableNumber != t.tableNumber
    ensures TablesValid(tables[k := t], next)
  {
    var r := tables[k := t];
    forall i, j | 0 <= i < j < |r| ensures r[i].id != r[j].id && r[i].tableNumber != r[j].tableNumber {
      assert tables[i].id != tables[j].id;
    }
  }

  /** The conflict check of UpdateTable: the new number is free, or it is the table's own. */
  predicate NumberFree(tables: seq<Table>, k: nat, tableNumber: Option<int>)
    requires k < |tables|
  {
    tableNumber.None? || tableNumber.value == tables[k].tableNumber
    || IndexOfNumber(tables, tableNumber.value).None?
  }

  /** With unique numbers, the conflict check passes exactly when no other table holds the requested number. */
  lemma NumberFreeMeans(tables: seq<Table>, next: nat, k: nat, tableNumber: Option<int>)
    requires TablesValid(tables, next) && k < |tables|
    ensures NumberFree(tables, k, tableNumber)
            <==> tableNumber.None?
                 || forall i :: 0 <= i < |tables| && i != k ==> tables[i].tableNumber != tableNumber.value
  {
    if tableNumber.Some? && tableNumber.value == tables[k].tableNumber {
      forall i | 0 <= i < |tables| && i != k ensures tables[i].tableNumber != tableNumber.value {
        if i < k {
          assert tables[i].tableNumber != tables[k].tableNumber;
        } else {
          assert tables[k].tableNumber != tables[i].tableNumber;
        }
      }
    }
  }

  /**
   * UpdateTable: changes the named columns of the table with that key. Moving
   * it to a number another table holds is a conflict; keeping its own number
   * is not. No other table changes and numbers stay unique.
   */
  method UpdateTable(db: Db, userId: Option<nat>, idParam: string,
                     tableNumber: Option<int>, capacity: Option<int>, status: Option<string>)
    returns (r: Response<Table>)
    requires db.Valid()
    modifies db`tables
    ensures db.Valid()
    ensures userId.None? <==> r == Unauthorized
    ensures userId.Some? && Params.ParseUint32(idParam).None? <==> r == BadRequest
    ensures r == NotFound <==> userId.Some? && Params.ParseUint32(idParam).Some?
                               && IndexOfTable(old(db.tables), Params.ParseUint32(idParam).value).None?
    ensures r == Conflict <==> userId.Some? && Params.ParseUint32(idParam).Some?
                               && var k := IndexOfTable(old(db.tables), Params.ParseUint32(idParam).value);
                               k.Some? && !NumberFree(old(db.tables), k.value, tableNumber)
    ensures r.Ok? || r == Unauthorized || r == BadRequest || r == NotFound || r == Conflict
    ensures !r.Ok? ==> db.tables == old(db.tables)
    ensures r.Ok? ==>
      var k := IndexOfTable(old(db.tables), Params.ParseUint32(idParam).value).value;
      && r.value == ApplyUpdate(old(db.tables)[k], tableNumber, capacity, status)
      && db.tables == old(db.tables)[k := r.value]
  {
    if userId.None? {
      return Unauthorized;
    }
    var id := Params.ParseUint32(idParam);
    if id.None? {
      return BadRequest;
    }
    var k := IndexOfTable(db.tables, id.value);
    if k.None? {
      return NotFound;
    }
    if !NumberFree(db.tables, k.value, tableNumber) {
      return Conflict;
    }
    var table := ApplyUpdate(db.tables[k.value], tableNumber, capacity, status);
    forall i | 0 <= i < |db.tables| && i != k.value ensures db.tables[i].tableNumber != table.tableNumber {
      if tableNumber.None? || tableNumber.value == db.tables[k.value].tableNumber {
        if i < k.value {
          assert db.tables[i].tableNumber != db.tables[k.value].tableNumber;
        } else {
          assert db.tables[k.value].tableNumber != db.tables[i].tableNumber;
        }
      }
    }
    ReplaceTableValid(db.tables, db.nextTableId, k.value, table);
    db.tables := db.tables[k.value := table];
    return Ok(table);
  }

  /**
   * DeleteTable: a soft delete. The table stays, with status "inactive", so
   * its orders keep their table; deleting it again changes nothing.
   */
  method DeleteTable(db: Db, userId: Option<nat>, idParam: string) returns (r: Response<()>)
    requires db.Valid()
    modifies db`tables
    ensures db.Valid()
    ensures userId.None? <==> r == Unauthorized
    ensures userId.Some? && Params.ParseUint32(idParam).None? <==> r == BadRequest
    ensures r.Ok? <==> userId.Some? && Params.ParseUint32(idParam).Some?
                       && IndexOfTable(old(db.tables), Params.ParseUint32(idParam).value).Some?
    ensures r.Ok? || r == Unauthorized || r == BadRequest || r == NotFound
    ensures !r.Ok? ==> db.tables == old(db.tables)
    ensures r.Ok? ==>
      var k := IndexOfTable(old(db.tables), Params.ParseUint32(idParam).value).value;
      && db.tables == old(db.tables)[k := old(db.tables)[k].(status := "inactive")]
      && GetTableByID(userId, idParam, db.tables) == Ok(old(db.tables)[k].(status := "inactive"))
  {
    if userId.None? {
      return Unauthorized;
    }
    var id := Params.ParseUint32(idParam);
    if id.None? {
      return BadRequest;
    }
    var k := IndexOfTable(db.tables, id.value);
    if k.None? {
      return NotFound;
    }
    var table := db.tables[k.value].(status := "inactive");
    forall i | 0 <= i < |db.tables| && i != k.value ensures db.tables[i].tableNumber != table.tableNumber {
      if i < k.value {
        assert db.tables[i].tableNumber != db.tables[k.value].tableNumber;
      } else {
        assert db.tables[k.value].tableNumber != db.tables[i].tableNumber;
      }
    }
    ReplaceTableValid(db.tables, db.nextTableId, k.value, table);
    db.tables := db.tables[k.value := table];
    TableLookup(db.tables, db.nextTableId, k.value);
    return Ok(());
  }
}
