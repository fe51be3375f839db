/**
 * DatastoreXAResource: the transaction resource that drives one datastore
 * transaction at a time. It is either idle or holds the current datastore
 * transaction; start begins one, commit and rollback end it, and every
 * transition out of turn is refused with an XAException.
 */
module XAResource {
  import opened Datastore
  import opened Framework

  /** What the resource asks of the datastore, by transaction id. */
  datatype TxnEvent = Began(txn: nat) | Committed(txn: nat) | RolledBack(txn: nat)

  /** The resource's state: the current transaction, and the datastore calls made so far. */
  datatype XAState = XAState(current: Option<nat>, log: seq<TxnEvent>)

  /**
   * start: from idle, the transaction the datastore service begins (`txn`)
   * becomes current; while a transaction is current, nested transactions
   * are refused and nothing changes.
   */
  function StartStep(s: XAState, txn: nat): (r: Result<XAState>)
    ensures r.Ok? <==> s.current.None?
    ensures r.Ok? ==> r.value.current == Some(txn) && r.value.log == s.log + [Began(txn)]
    ensures r.Err? ==> r.error == NestedTransaction && r.error.Exception() == XAException
  {
    if s.current.None? then Ok(XAState(Some(txn), s.log + [Began(txn)]))
    else Err(NestedTransaction)
  }

  /** commit: the current transaction is committed and the resource is idle again. */
  function CommitStep(s: XAState): (r: Result<XAState>)
    ensures r.Ok? <==> s.current.Some?
    ensures r.Ok? ==> r.value.current.None? && r.value.log == s.log + [Committed(s.current.value)]
    ensures r.Err? ==> r.error == NoTransactionToCommit && r.error.Exception() == XAException
  {
    match s.current
    case Some(t) => Ok(XAState(None, s.log + [Committed(t)]))
    case None => Err(NoTransactionToCommit)
  }

  /** rollback: the current transaction is rolled back and the resource is idle again. */
  function RollbackStep(s: XAState): (r: Result<XAState>)
    ensures r.Ok? <==> s.current.Some?
    ensures r.Ok? ==> r.value.current.None? && r.value.log == s.log + [RolledBack(s.current.value)]
    ensures r.Err? ==> r.error == NoTransactionToRollBack && r.error.Exception() == XAException
  {
    match s.current
    case Some(t) => Ok(XAState(None, s.log + [RolledBack(t)]))
    case None => Err(NoTransactionToRollBack)
  }

  /** The transaction left open by a sequence of datastore calls. */
  function OpenAfter(log: seq<TxnEvent>): Option<nat>
  {
    if log == [] then None
    else match log[|log| - 1]
      case Began(t) => Some(t)
      case _ => None
  }

  /**
   * Datastore calls are well bracketed: a transaction begins only when none
   * is open, and only the open transaction is committed or rolled back.
   */
  predicate WellBracketed(log: seq<TxnEvent>)
  {
    log == [] || (
      var init := log[..|log| - 1];
      WellBracketed(init) &&
      match log[|log| - 1]
      case Began(_) => OpenAfter(init).None?
      case Committed(t) => OpenAfter(init) == Some(t)
      case RolledBack(t) => OpenAfter(init) == Some(t))
  }

  /** The resource's state agrees with the calls it has made. */
  predicate Consistent(s: XAState)
  {
    WellBracketed(s.log) && s.current == OpenAfter(s.log)
  }

  lemma LastOfAppended(log: seq<TxnEvent>, ev: TxnEvent)
    ensures (log + [ev])[..|log|] == log && (log + [ev])[|log|] == ev
  {
  }

  /** Every successful transition keeps the state consistent with the calls made. */
  lemma TransitionsPreserveConsistency(s: XAState, txn: nat)
    requires Consistent(s)
    ensures StartStep(s, txn).Ok? ==> Consistent(StartStep(s, txn).value)
    ensures CommitStep(s).Ok? ==> Consistent(CommitStep(s).value)
    ensures RollbackStep(s).Ok? ==> Consistent(RollbackStep(s).value)
  {
    LastOfAppended(s.log, Began(txn));
    if s.current.Some? {
      LastOfAppended(s.log, Committed(s.current.value));
      LastOfAppended(s.log, RolledBack(s.current.value));
    }
  }

  function CountBegan(log: seq<TxnEvent>): nat
  {
    if log == [] then 0
    else CountBegan(log[..|log| - 1]) + (if log[|log| - 1].Began? then 1 else 0)
  }

  function CountEnded(log: seq<TxnEvent>): nat
  {
    if log == [] then 0
    else CountEnded(log[..|log| - 1]) + (if log[|log| - 1].Began? then 0 else 1)
  }

  /**
   * As many transactions have been begun as committed or rolled back,
   * plus the one still open.
   */
  lemma {:induction false} EveryTransactionEnds(log: seq<TxnEvent>)
    requires WellBracketed(log)
    ensures CountBegan(log) == CountEnded(log) + (if OpenAfter(log).Some? then 1 else 0)
    decreases |log|
  {
    if log != [] {
      EveryTransactionEnds(log[..|log| - 1]);
    }
  }

  /** After a commit or a rollback, a new transaction may start. */
  lemma EndedTransactionAllowsStart(s: XAState, txn: nat)
    ensures CommitStep(s).Ok? ==> StartStep(CommitStep(s).value, txn).Ok?
    ensures RollbackStep(s).Ok? ==> StartStep(RollbackStep(s).value, txn).Ok?
  {
  }

  class DatastoreXAResource {
    /** The current datastore transaction, by id; None when idle. */
    var currentTxn: Option<nat>
    /** The begin, commit and rollback calls made on datastore transactions. */
    var log: seq<TxnEvent>

    function State(): XAState
      reads this
    {
      XAState(currentTxn, log)
    }

    predicate Valid()
      reads this
    {
      Consistent(State())
    }

    constructor ()
      ensures Valid() && State() == XAState(None, [])
    {
      currentTxn := None;
      log := [];
    }

    /** getCurrentTransaction: the transaction the last begin call opened, if it is still open. */
    function GetCurrentTransaction(): (t: Option<nat>)
      reads this
      ensures Valid() ==> t == OpenAfter(log)
    {
      currentTxn
    }

    /** start, with `txn` the transaction datastoreService.beginTransaction() returns. */
    method Start(txn: nat) returns (r: Outcome)
      requires Valid()
      modifies this
      ensures Valid()
      ensures match StartStep(old(State()), txn)
        case Ok(s) => r == Pass && State() == s
        case Err(e) => r == Fail(e) && State() == old(State())
    {
      TransitionsPreserveConsistency(State(), txn);
      if currentTxn.None? {
        currentTxn := Some(txn);
        log := log + [Began(txn)];
        r := Pass;
      } else {
        r := Fail(NestedTransaction);
      }
    }

    method Commit() returns (r: Outcome)
      requires Valid()
      modifies this
      ensures Valid()
      ensures match CommitStep(old(State()))
        case Ok(s) => r == Pass && State() == s
        case Err(e) => r == Fail(e) && State() == old(State())
    {
      TransitionsPreserveConsistency(State(), 0);
      if currentTxn.Some? {
        log := log + [Committed(currentTxn.value)];
        currentTxn := None;
        r := Pass;
      } else {
        r := Fail(NoTransactionToCommit);
      }
    }

    method Rollback() returns (r: Outcome)
      requires Valid()
      modifies this
      ensures Valid()
      ensures match RollbackStep(old(State()))
        case Ok(s) => r == Pass && State() == s
        case Err(e) => r == Fail(e) && State() == old(State())
    {
      TransitionsPreserveConsistency(State(), 0);
      if currentTxn.Some? {
        log := log + [RolledBack(currentTxn.value)];
        currentTxn := None;
        r := Pass;
      } else {
        r := Fail(NoTransactionToRollBack);
      }
    }
  }

  /**
   * One transaction after another: a resource that starts, commits, and
   * starts again succeeds each time, and a second start while the new
   * transaction is open is refused.
   */
  method StartCommitStart(t1: nat, t2: nat) returns (first: Outcome, commit: Outcome, second: Outcome, nested: Outcome)
    ensures first == Pass && commit == Pass && second == Pass
    ensures nested == Fail(NestedTransaction)
  {
    var xa := new DatastoreXAResource();
    first := xa.Start(t1);
    commit := xa.Commit();
    second := xa.Start(t2);
    nested := xa.Start(t2 + 1);
  }
}
