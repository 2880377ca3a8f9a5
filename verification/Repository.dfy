/**
 The MySQL repository: one connection that autocommits outside a transaction. Every statement,
 begin and commit may raise; a raised statement has changed nothing. On a faultless connection only
 a key violation raises, which is how contracts say exactly when an operation succeeds.
 */
module Repositories {
  import opened Wrappers
  import opened Schema

  class Repository {
    const faultless: bool
    var committed: Tables
    var working: Tables
    var inTransaction: bool
    var autoIncrement: int

    /** What statements on this connection see. */
    function View(): Tables
      reads this
    {
      if inTransaction then working else committed
    }

    /** A SELECT: a consistent snapshot of the tables, or an exception and no rows. */
    method Read() returns (outcome: Outcome, db: Tables)
      ensures outcome.Done? ==> db == View()
      ensures faultless ==> outcome.Done?
    {
      var works: bool := *;
      if works || faultless {
        return Done, View();
      }
      return Raised, Tables({}, map[], map[], {}, map[], map[], map[]);
    }

    /** A write statement and its row count. */
    method Execute(s: Statement) returns (outcome: Outcome, rowCount: nat)
      modifies this
      ensures outcome.Done? ==>
        && Exec(old(View()), s, old(autoIncrement)).Ok?
        && View() == Exec(old(View()), s, old(autoIncrement)).value
        && rowCount == RowCount(old(View()), s)
      ensures outcome.Raised? ==> View() == old(View())
      ensures faultless ==> (outcome.Done? <==> Exec(old(View()), s, old(autoIncrement)).Ok?)
      ensures inTransaction == old(inTransaction)
      ensures inTransaction ==> committed == old(committed)
      ensures autoIncrement == old(autoIncrement) + 1
    {
      var works: bool := *;
      var result := Exec(View(), s, autoIncrement);
      rowCount := RowCount(View(), s);
      autoIncrement := autoIncrement + 1;
      if (!works && !faultless) || result.Err? {
        return Raised, 0;
      }
      if inTransaction {
        working := result.value;
      } else {
        committed := result.value;
      }
      return Done, rowCount;
    }

    method Begin() returns (outcome: Outcome)
      modifies this
      ensures committed == old(committed) && autoIncrement == old(autoIncrement)
      ensures outcome.Done? ==> inTransaction && working == committed
      ensures outcome.Raised? ==> inTransaction == old(inTransaction) && working == old(working)
      ensures faultless ==> outcome.Done?
    {
      var works: bool := *;
      if !works && !faultless {
        return Raised;
      }
      working, inTransaction := committed, true;
      return Done;
    }

    /** A commit that raises has not committed. */
    method Commit() returns (outcome: Outcome)
      modifies this
      ensures outcome.Done? ==> !inTransaction && committed == old(View())
      ensures outcome.Raised? ==> committed == old(committed) && inTransaction == old(inTransaction) && working == old(working)
      ensures autoIncrement == old(autoIncrement)
      ensures faultless ==> outcome.Done?
    {
      var works: bool := *;
      if !works && !faultless {
        return Raised;
      }
      committed, inTransaction := View(), false;
      return Done;
    }

    /** Discards the transaction, if any; without a begin there is nothing to discard. */
    method Rollback() returns (outcome: Outcome)
      modifies this
      ensures committed == old(committed) && autoIncrement == old(autoIncrement)
      ensures outcome.Done? ==> !inTransaction
      ensures faultless ==> outcome.Done?
    {
      var works: bool := *;
      if !works && !faultless {
        return Raised;
      }
      inTransaction := false;
      return Done;
    }
  }
}
