/** Running the statements of one transaction in order, on the tables and on the repository. */
module Transactions {
  import opened Wrappers
  import opened Schema
  import opened Repositories

  lemma {:induction false} ExecAllAppend(db: Tables, ss: seq<Statement>, ts: seq<Statement>, auto: int)
    ensures ExecAll(db, ss + ts, auto)
         == (var first := ExecAll(db, ss, auto);
             if first.Err? then first else ExecAll(first.value, ts, auto + |ss|))
    decreases |ss|
  {
    if ss == [] {
      assert ss + ts == ts;
    } else {
      assert (ss + ts)[1..] == ss[1..] + ts;
      var first := Exec(db, ss[0], auto);
      if first.Ok? {
        ExecAllAppend(first.value, ss[1..], ts, auto + 1);
      }
    }
  }

  lemma ExecAllNone(db: Tables, auto: int)
    ensures ExecAll(db, [], auto) == Ok(db)
  {
  }

  lemma ExecAllOne(db: Tables, s: Statement, auto: int)
    ensures ExecAll(db, [s], auto) == Exec(db, s, auto)
  {
    assert [s][1..] == [];
    var r := Exec(db, s, auto);
    if r.Ok? {
      assert ExecAll(r.value, [], auto + 1) == r;
    }
  }

  /** A refused beginning refuses the whole transaction. */
  lemma RefusedPrefix(db: Tables, ss: seq<Statement>, all: seq<Statement>, auto: int)
    requires ss <= all
    ensures ExecAll(db, ss, auto).Err? ==> ExecAll(db, all, auto).Err?
  {
    hide ExecAll;
    assert all == ss + all[|ss|..];
    ExecAllAppend(db, ss, all[|ss|..], auto);
  }

  /** Runs one transaction's statements in order, stopping at the first exception. */
  method ExecuteAll(repo: Repository, ss: seq<Statement>) returns (outcome: Outcome)
    requires repo.inTransaction
    modifies repo
    ensures repo.inTransaction && repo.committed == old(repo.committed)
    ensures outcome.Done? ==>
      && ExecAll(old(repo.working), ss, old(repo.autoIncrement)) == Ok(repo.working)
      && repo.autoIncrement == old(repo.autoIncrement) + |ss|
    ensures repo.autoIncrement >= old(repo.autoIncrement)
    ensures repo.faultless ==> (outcome.Done? <==> ExecAll(old(repo.working), ss, old(repo.autoIncrement)).Ok?)
  {
    hide ExecAll, Exec;
    ExecAllNone(repo.working, repo.autoIncrement);
    for k := 0 to |ss|
      invariant repo.inTransaction && repo.committed == old(repo.committed)
      invariant ExecAll(old(repo.working), ss[..k], old(repo.autoIncrement)) == Ok(repo.working)
      invariant repo.autoIncrement == old(repo.autoIncrement) + k
    {
      ExecAllAppend(old(repo.working), ss[..k], [ss[k]], old(repo.autoIncrement));
      assert ss[..k + 1] == ss[..k] + [ss[k]];
      ExecAllOne(repo.working, ss[k], repo.autoIncrement);
      RefusedPrefix(old(repo.working), ss[..k + 1], ss, old(repo.autoIncrement));
      var executed, rowCount := repo.Execute(ss[k]);
      if executed.Raised? {
        return Raised;
      }
    }
    assert ss[..|ss|] == ss;
    return Done;
  }

  /** One more statement of the transaction that has already run `ran` from `start`. */
  method Issue(repo: Repository, s: Statement, ghost start: Tables, ghost auto: int, ghost ran: seq<Statement>)
    returns (outcome: Outcome, rowCount: nat)
    requires repo.inTransaction && ExecAll(start, ran, auto) == Ok(repo.working) && repo.autoIncrement == auto + |ran|
    modifies repo
    ensures repo.inTransaction && repo.committed == old(repo.committed)
    ensures repo.autoIncrement >= old(repo.autoIncrement)
    ensures outcome.Done? ==>
      && ExecAll(start, ran + [s], auto) == Ok(repo.working) && repo.autoIncrement == auto + |ran + [s]|
      && rowCount == RowCount(old(repo.working), s)
    ensures repo.faultless ==> (outcome.Done? <==> ExecAll(start, ran + [s], auto).Ok?)
  {
    hide ExecAll, Exec;
    ExecAllAppend(start, ran, [s], auto);
    ExecAllOne(repo.working, s, repo.autoIncrement);
    outcome, rowCount := repo.Execute(s);
  }

  // ---------- Releasing a container ----------

  /** The tables once a container row is deleted: its ports are free, it is no longer existing. */
  function Released(db: Tables, row: int): Tables {
    var db1 := db.(ports := map p | p in db.ports && db.ports[p].owner != Some(row) :: db.ports[p]);
    if row in db.containers then db1.(containers := db.containers[row := db.containers[row].(existing := false)]) else db1
  }

  lemma ReleaseIs(db: Tables, row: int, auto: int)
    ensures ExecAll(db, [DeletePorts(row), MarkDeleted(row)], auto) == Ok(Released(db, row))
  {
    var db1 := Exec(db, DeletePorts(row), auto).value;
    assert [DeletePorts(row), MarkDeleted(row)][1..] == [MarkDeleted(row)];
    ExecAllOne(db1, MarkDeleted(row), auto + 1);
  }
}
