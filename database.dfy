/**
 * The MySQL server as the provisioner sees it through one connection with autocommit
 * off: the tables that exist, the primary keys of their rows, an open transaction, and
 * the AUTO_INCREMENT counter of each table. Row contents other than the key appear only in
 * the journal of the INSERT and DELETE statements carried out.
 * The server may refuse any statement (a constraint, a type, a lock); which statements it
 * refuses is not modelled, so each statement's success is a nondeterministic choice.
 */
module Database {
  import opened Results
  import opened SqlText

  /** A value bound to a %s placeholder: None, an integer or a string. */
  datatype Value = Null | IntValue(i: int) | TextValue(s: string)

  /** An INSERT the server carried out: the table, the columns and values bound, and the key it assigned. */
  datatype Insertion = Insertion(table: string, columns: seq<string>, values: seq<Value>, key: int)

  /** A DELETE the server carried out: DELETE FROM `table` WHERE `keyColumn` IN (keys). */
  datatype Deletion = Deletion(table: string, keyColumn: string, keys: seq<int>)

  /** Every key of s lies below n. */
  predicate Below(s: set<int>, n: int) {
    forall k :: k in s ==> k < n
  }

  class Server {
    /** The keys of each table as last committed; the domain is the set of existing tables. */
    var committed: map<string, set<int>>
    /** The keys of each table as the open transaction sees them. */
    var pending: map<string, set<int>>
    /** The next AUTO_INCREMENT value of each table; InnoDB does not give values back on rollback. */
    var nextId: map<string, int>
    /** Every INSERT carried out so far, in order, including those a rollback undid. */
    ghost var inserts: seq<Insertion>
    /** Every DELETE carried out so far, in order, including those a rollback undid. */
    ghost var deletes: seq<Deletion>

    predicate Valid()
      reads this
    {
      && pending.Keys == committed.Keys == nextId.Keys
      && (forall t :: t in pending ==> Below(pending[t], nextId[t]))
      && (forall t :: t in committed ==> Below(committed[t], nextId[t]))
    }

    /** A server holding the given tables, with no transaction open. */
    constructor (rows: map<string, set<int>>, next: map<string, int>)
      requires rows.Keys == next.Keys
      requires forall t :: t in rows ==> Below(rows[t], next[t])
      ensures Valid()
      ensures committed == rows && pending == rows && nextId == next
      ensures inserts == [] && deletes == []
    {
      committed, pending, nextId := rows, rows, next;
      inserts, deletes := [], [];
    }

    /**
     * INSERT INTO `table` (columns) VALUES (placeholders), executed with `values` and
     * returning cursor.lastrowid. The row gets the table's next AUTO_INCREMENT value. The
     * driver refuses a statement whose placeholders do not match the values. An error
     * leaves the transaction as it was.
     */
    method Insert(table: string, columns: seq<string>, placeholders: string, values: seq<Value>)
      returns (r: Result<int, string>)
      requires Valid()
      modifies this
      ensures Valid()
      ensures committed == old(committed) && deletes == old(deletes)
      ensures CountChar(placeholders, '%') != |values| ==> r.Err?
      ensures r.Ok? ==> table in old(pending) && |columns| == |values|
      ensures r.Ok? ==> inserts == old(inserts) + [Insertion(table, columns, values, r.value)]
      ensures r.Ok? ==> r.value == old(nextId)[table]
      ensures r.Ok? ==> pending == old(pending)[table := old(pending)[table] + {r.value}]
      ensures r.Ok? ==> nextId == old(nextId)[table := r.value + 1]
      ensures r.Err? ==> pending == old(pending) && nextId == old(nextId) && inserts == old(inserts)
    {
      if CountChar(placeholders, '%') != |values| {
        return Err("Not all parameters were used in the SQL statement");
      }
      if table !in pending {
        return Err("Table '" + table + "' doesn't exist");
      }
      if |columns| != |values| {
        return Err("Column count doesn't match value count");
      }
      var accepted: bool :| true;
      if !accepted {
        var message: string :| true;
        return Err(message);
      }
      var key := nextId[table];
      pending := pending[table := pending[table] + {key}];
      nextId := nextId[table := key + 1];
      inserts := inserts + [Insertion(table, columns, values, key)];
      r := Ok(key);
    }

    /**
     * DELETE FROM `table` WHERE `keyColumn` IN (placeholders), executed with `keys`. The
     * driver refuses placeholders that do not match the keys; an error leaves the
     * transaction as it was.
     */
    method Delete(table: string, keyColumn: string, placeholders: string, keys: seq<int>) returns (r: Result<(), string>)
      requires Valid()
      modifies this
      ensures Valid()
      ensures committed == old(committed) && nextId == old(nextId) && inserts == old(inserts)
      ensures CountChar(placeholders, '%') != |keys| ==> r.Err?
      ensures r.Ok? ==> table in old(pending)
      ensures r.Ok? ==> pending == old(pending)[table := old(pending)[table] - set k | k in keys]
      ensures r.Ok? ==> deletes == old(deletes) + [Deletion(table, keyColumn, keys)]
      ensures r.Err? ==> pending == old(pending) && deletes == old(deletes)
    {
      if CountChar(placeholders, '%') != |keys| {
        return Err("Not all parameters were used in the SQL statement");
      }
      if table !in pending {
        return Err("Table '" + table + "' doesn't exist");
      }
      var accepted: bool :| true;
      if !accepted {
        var message: string :| true;
        return Err(message);
      }
      pending := pending[table := pending[table] - set k | k in keys];
      deletes := deletes + [Deletion(table, keyColumn, keys)];
      r := Ok(());
    }

    method Commit()
      requires Valid()
      modifies this
      ensures Valid()
      ensures committed == old(pending) && pending == old(pending) && nextId == old(nextId)
      ensures inserts == old(inserts) && deletes == old(deletes)
    {
      committed := pending;
    }

    method Rollback()
      requires Valid()
      modifies this
      ensures Valid()
      ensures pending == old(committed) && committed == old(committed) && nextId == old(nextId)
      ensures inserts == old(inserts) && deletes == old(deletes)
    {
      pending := committed;
    }

    /**
     * A CREATE TABLE statement that creates the table `name`. Being DDL, it first commits
     * the open transaction; it then fails when the table exists, or when the server refuses it.
     */
    method CreateTable(name: string, statement: string) returns (r: Result<(), string>)
      requires Valid()
      modifies this
      ensures Valid()
      ensures inserts == old(inserts) && deletes == old(deletes)
      ensures name in old(pending) ==> r.Err?
      ensures r.Ok? ==> committed == old(pending)[name := {}] && pending == committed
      ensures r.Ok? ==> nextId == old(nextId)[name := 1]
      ensures r.Err? ==> committed == old(pending) && pending == old(pending) && nextId == old(nextId)
    {
      committed := pending;
      if name in pending {
        return Err("Table '" + name + "' already exists");
      }
      var accepted: bool :| true;
      if !accepted {
        var message: string :| true;
        return Err(message);
      }
      pending := pending[name := {}];
      committed := pending;
      nextId := nextId[name := 1];
      r := Ok(());
    }
  }
}
