/**
 * DBTransaction of src/database.h: a callback run inside a database transaction, again after a deadlock, rolled back
 * unless it is committed. A commit that fails has no effect.
 */
module Transactions {
  const TRANSACTION_MAX_ATTEMPTS: nat := 3

  datatype Verdict = Accepted | Refused | Threw

  /** One run of a callback: its verdict, what it has made of the store, and whether its last query met a deadlock. */
  datatype Attempt<S> = Attempt(verdict: Verdict, left: S, deadlock: bool)

  /** What the commit of an attempt comes to. */
  datatype Commit = Committed | Failed(deadlock: bool)

  /** The callback and the database, by attempt; others: what other sessions do to the store after an attempt. */
  datatype World<!S> = World(begins: nat -> bool, run: (nat, S) -> Attempt<S>, commits: nat -> Commit,
                             others: (nat, S) -> S)

  /** The store, whether the wrapper reports success, and the last attempt. */
  datatype Outcome<S> = Outcome(store: S, ok: bool, last: nat)

  /** executeWithinTransactionRollbackOnFailure from an attempt on. */
  function Execute<S>(w: World<S>, s: S, attempt: nat): Outcome<S>
    requires attempt >= 1
    decreases TRANSACTION_MAX_ATTEMPTS + 1 - attempt
  {
    if attempt > TRANSACTION_MAX_ATTEMPTS || !w.begins(attempt) then Outcome(s, false, attempt) else
      var r := w.run(attempt, s);
      if r.verdict == Threw then Outcome(s, false, attempt)
      else if r.verdict == Accepted && w.commits(attempt) == Committed then Outcome(r.left, true, attempt)
      else if Deadlocked(w, s, attempt) && attempt < TRANSACTION_MAX_ATTEMPTS then
        Execute(w, w.others(attempt, s), attempt + 1)
      else Outcome(s, false, attempt)
  }

  /** The attempt was refused, or its commit failed, for a deadlock. */
  predicate Deadlocked<S>(w: World<S>, s: S, attempt: nat) {
    && w.begins(attempt)
    && var r := w.run(attempt, s);
       if r.verdict == Accepted then w.commits(attempt) == Failed(true) else r.verdict == Refused && r.deadlock
  }

  /** The store as a later attempt finds it, if attempt found s and only other sessions have written since. */
  function Found<S>(w: World<S>, s: S, attempt: nat, later: nat): S
    requires attempt <= later
  {
    if attempt == later then s else w.others(later - 1, Found(w, s, attempt, later - 1))
  }

  lemma {:induction false} FoundNext<S>(w: World<S>, s: S, attempt: nat, later: nat)
    requires attempt < later
    ensures Found(w, s, attempt, later) == Found(w, w.others(attempt, s), attempt + 1, later)
  {
    if attempt + 1 < later {
      FoundNext(w, s, attempt, later - 1);
    } else {
      assert Found(w, s, attempt, attempt) == s;
    }
  }

  /**
   * There are at most three attempts, another one only and always after a deadlock. Success means exactly that the last
   * of them was accepted and committed, on the store as it found it; otherwise what it found is left alone.
   */
  lemma {:induction false} ExecuteIsAtomic<S>(w: World<S>, s: S, attempt: nat)
    requires 1 <= attempt <= TRANSACTION_MAX_ATTEMPTS
    ensures var o := Execute(w, s, attempt);
            && attempt <= o.last <= TRANSACTION_MAX_ATTEMPTS
            && (forall a | attempt <= a < o.last :: Deadlocked(w, Found(w, s, attempt, a), a))
            && var found := Found(w, s, attempt, o.last);
               && (o.ok <==>
                     w.begins(o.last) && w.run(o.last, found).verdict == Accepted && w.commits(o.last) == Committed)
               && (o.last < TRANSACTION_MAX_ATTEMPTS ==> !Deadlocked(w, found, o.last))
               && o.store == if o.ok then w.run(o.last, found).left else found
    decreases TRANSACTION_MAX_ATTEMPTS - attempt
  {
    if attempt < TRANSACTION_MAX_ATTEMPTS && Deadlocked(w, s, attempt) {
      var next := w.others(attempt, s);
      ExecuteIsAtomic(w, next, attempt + 1);
      var o := Execute(w, next, attempt + 1);
      FoundNext(w, s, attempt, o.last);
      forall a | attempt <= a < o.last
        ensures Deadlocked(w, Found(w, s, attempt, a), a)
      {
        if a > attempt {
          FoundNext(w, s, attempt, a);
        }
      }
    }
  }

  class Database<S> {
    var committed: S
    var open: bool
    var working: S  // the store as the open transaction sees it

    constructor (s: S)
      ensures committed == s && !open
    {
      committed, open, working := s, false, s;
    }

    method BeginTransaction(succeeds: bool) returns (ok: bool)
      requires !open
      modifies this
      ensures ok == succeeds == open && committed == old(committed) && (ok ==> working == committed)
    {
      ok := succeeds;
      if ok {
        open, working := true, committed;
      }
    }

    method Rollback()
      modifies this
      ensures !open && committed == old(committed)
    {
      open := false;
    }

    /** Another session commits. */
    method WriteFromOutside(s: S)
      requires !open
      modifies this
      ensures !open && committed == s
    {
      committed := s;
    }

    method Commit(commit: Commit) returns (ok: bool)
      requires open
      modifies this
      ensures ok == commit.Committed?
      ensures if ok then !open && committed == old(working)
              else open && committed == old(committed) && working == old(working)
    {
      ok := commit.Committed?;
      if ok {
        committed, open := working, false;
      }
    }
  }

  datatype TransactionState = StateNoStart | StateStart | StateCommit

  class DBTransaction<S> {
    const db: Database<S>
    var state: TransactionState

    constructor (db: Database<S>)
      ensures this.db == db && state == StateNoStart
    {
      this.db, state := db, StateNoStart;
    }

    /** A transaction is open exactly in state StateStart. */
    ghost predicate Valid()
      reads this, db
    {
      db.open == (state == StateStart)
    }

    method Begin(succeeds: bool) returns (ok: bool)
      requires Valid() && state == StateNoStart
      modifies this, db
      ensures Valid() && ok == succeeds && state == (if ok then StateStart else StateNoStart)
      ensures db.committed == old(db.committed) && (ok ==> db.working == db.committed)
    {
      ok := db.BeginTransaction(succeeds);
      state := if ok then StateStart else StateNoStart;
    }

    method Commit(commit: Commit) returns (ok: bool)
      requires Valid()
      modifies this, db
      ensures Valid() && ok == (old(state) == StateStart && commit.Committed?)
      ensures if ok then state == StateCommit && db.committed == old(db.working)
              else state == old(state) && db.committed == old(db.committed)
    {
      if state != StateStart {
        return false;
      }
      ok := db.Commit(commit);
      if ok {
        state := StateCommit;
      }
    }

    method Rollback()
      requires Valid()
      modifies this, db
      ensures Valid() && state == (if old(state) == StateStart then StateNoStart else old(state))
      ensures db.committed == old(db.committed)
    {
      if state == StateStart {
        state := StateNoStart;
        db.Rollback();
      }
    }

    /** The destructor. */
    method Destroy()
      requires Valid()
      modifies db
      ensures !db.open && db.committed == old(db.committed)
    {
      if state == StateStart {
        db.Rollback();
      }
    }
  }

  method ExecuteWithinTransaction<S>(db: Database<S>, w: World<S>) returns (ok: bool)
    requires !db.open
    modifies db
    ensures !db.open
    ensures db.committed == Execute(w, old(db.committed), 1).store && ok == Execute(w, old(db.committed), 1).ok
  {
    ghost var first := Execute(w, db.committed, 1);
    var attempt := 1;
    while attempt <= TRANSACTION_MAX_ATTEMPTS
      invariant attempt >= 1 && !db.open && Execute(w, db.committed, attempt) == first
    {
      var transaction := new DBTransaction(db);
      var begun := transaction.Begin(w.begins(attempt));
      if !begun {
        return false;
      }
      var r := w.run(attempt, db.working);
      db.working := r.left;
      if r.verdict == Threw {
        transaction.Rollback();
        return false;
      }
      if r.verdict == Refused {
        transaction.Rollback();
        if r.deadlock && attempt < TRANSACTION_MAX_ATTEMPTS {
          db.WriteFromOutside(w.others(attempt, db.committed));
          attempt := attempt + 1;
          continue;
        }
        return false;
      }
      var committed := transaction.Commit(w.commits(attempt));
      transaction.Destroy();
      if committed {
        return true;
      }
      if w.commits(attempt).deadlock && attempt < TRANSACTION_MAX_ATTEMPTS {
        db.WriteFromOutside(w.others(attempt, db.committed));
        attempt := attempt + 1;
        continue;
      }
      return false;
    }
    ok := false;
  }

  // ---------------------------------------------------------------- a block of statements

  datatype Effect<+S> = Undone | Done(store: S)

  /** Whatever the database does, an attempt only accepts after it has had the effect of its block. */
  ghost predicate Performs<S(!new)>(w: World<S>, block: (nat, S) -> Effect<S>) {
    forall a, s | w.run(a, s).verdict == Accepted :: block(a, s) == Done(w.run(a, s).left)
  }

  /** A transaction applies the block of its last attempt once, to the store that attempt found, or nothing at all. */
  lemma BlockOrNothing<S(!new)>(w: World<S>, block: (nat, S) -> Effect<S>, s: S)
    requires Performs(w, block)
    ensures var o := Execute(w, s, 1);
            && o.last >= 1
            && var found := Found(w, s, 1, o.last);
               if o.ok then block(o.last, found) == Done(o.store) else o.store == found
  {
    ExecuteIsAtomic(w, s, 1);
  }
}
