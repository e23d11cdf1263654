/**
 * A database session without autoflush: statements see flushed rows only, added rows wait until the next
 * flush, and nothing reaches the committed store before a commit. Any database call may fail.
 */
module Sessions {

  /** The database answers the calls numbered `from` up to, not including, `to`. */
  ghost predicate Answers(fails: set<nat>, from: nat, to: nat) {
    forall k :: from <= k < to ==> k !in fails
  }

  class Session<Row(==)> {
    const fails: set<nat>         // the numbers of the database calls that raise
    var calls: nat                // database calls made so far
    var nextId: nat               // source of fresh primary keys
    var committed: seq<Row>
    var flushed: seq<Row>         // the committed rows as changed by this transaction
    var pending: seq<Row>         // added, not flushed

    constructor (fails: set<nat>, rows: seq<Row>, nextId: nat)
      ensures this.fails == fails && calls == 0 && this.nextId == nextId
      ensures committed == rows && flushed == rows && pending == []
    {
      this.fails, this.calls, this.nextId := fails, 0, nextId;
      this.committed, this.flushed, this.pending := rows, rows, [];
    }

    /** Everything this transaction would commit now. */
    function View(): seq<Row>
      reads this
    {
      flushed + pending
    }

    predicate Idle()
      reads this
    {
      flushed == committed && pending == []
    }

    /** One round trip to the database. */
    method Call() returns (ok: bool)
      modifies this`calls
      ensures ok == (old(calls) !in fails) && calls == old(calls) + 1
    {
      ok := calls !in fails;
      calls := calls + 1;
    }

    method FreshId() returns (id: nat)
      modifies this`nextId
      ensures id == old(nextId) && nextId == id + 1
    {
      id := nextId;
      nextId := nextId + 1;
    }

    method Add(row: Row)
      modifies this`pending
      ensures pending == old(pending) + [row]
      ensures View() == old(View()) + [row]
    {
      pending := pending + [row];
    }

    method Flush() returns (ok: bool)
      modifies this`calls, this`flushed, this`pending
      ensures ok == (old(calls) !in fails) && calls == old(calls) + 1
      ensures View() == old(View())
      ensures ok ==> pending == []
      ensures !ok ==> pending == old(pending)
    {
      ok := Call();
      if ok {
        flushed, pending := flushed + pending, [];
        assert View() == flushed;
      }
    }

    method Commit() returns (ok: bool)
      modifies this`calls, this`committed, this`flushed, this`pending
      ensures ok == (old(calls) !in fails) && calls == old(calls) + 1
      ensures ok ==> Idle() && committed == old(View()) && View() == old(View())
      ensures !ok ==> committed == old(committed) && flushed == old(flushed) && pending == old(pending)
    {
      ok := Call();
      if ok {
        committed := flushed + pending;
        flushed, pending := committed, [];
      }
    }

    method Rollback() returns (ok: bool)
      modifies this`calls, this`flushed, this`pending
      ensures ok == (old(calls) !in fails) && calls == old(calls) + 1
      ensures ok ==> Idle()
      ensures !ok ==> flushed == old(flushed) && pending == old(pending)
    {
      ok := Call();
      if ok {
        flushed, pending := committed, [];
      }
    }
  }
}
