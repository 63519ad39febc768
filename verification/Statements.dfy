/** A prepared statement, as a finite sequence of rows whose steps may be interrupted. */
module Statements {
  import opened Memory

  /** A column of the statement's current row. `NoText` is a text column whose text cannot be fetched. */
  datatype Value =
    | TextValue(bytes: seq<Byte>)
    | IntValue(long: Long)
    | FloatValue(bits: Bits64)
    | BlobValue(bytes: seq<Byte>)
    | NullValue
    | NoText
    | Unknown

  datatype Interrupt = Proceed | Busy | Locked | Fault
  datatype StepCode = RowReady | Done | BusyCode | LockedCode | ErrorCode

  /** A prepared statement: a finite result whose steps may be interrupted in any pattern. */
  class Statement {
    const rows: seq<seq<Value>>
    const interrupts: nat -> Interrupt
    var calls: nat
    var pos: nat

    constructor (rows: seq<seq<Value>>, interrupts: nat -> Interrupt)
      ensures this.rows == rows && this.interrupts == interrupts && calls == 0 && pos == 0
    {
      this.rows, this.interrupts, calls, pos := rows, interrupts, 0, 0;
    }

    method Step() returns (rc: StepCode)
      requires pos <= |rows|
      modifies this
      ensures calls == old(calls) + 1 && pos <= |rows|
      ensures rc == match interrupts(old(calls))
        case Proceed => if old(pos) < |rows| then RowReady else Done
        case Busy => BusyCode
        case Locked => LockedCode
        case Fault => ErrorCode
      ensures pos == if rc == RowReady then old(pos) + 1 else old(pos)
    {
      match interrupts(calls) {
        case Proceed => if pos < |rows| { pos := pos + 1; rc := RowReady; } else { rc := Done; }
        case Busy => rc := BusyCode;
        case Locked => rc := LockedCode;
        case Fault => rc := ErrorCode;
      }
      calls := calls + 1;
    }

    /** Going back to before the first row. */
    method Rewind()
      modifies this`pos
      ensures pos == 0
    {
      pos := 0;
    }

    /** Preparing the statement anew; this too may fail. */
    method Prepare() returns (ok: bool)
      modifies this
      ensures calls == old(calls) + 1 && ok == (interrupts(old(calls)) != Fault)
      ensures pos == if ok then 0 else old(pos)
    {
      ok := interrupts(calls) != Fault;
      calls := calls + 1;
      if ok { pos := 0; }
    }
  }

  const RETRY_TIME: int := 50

  /** Some step since `from` faulted, or more steps in a row were busy or locked than are retried. */
  ghost predicate Disturbed(interrupts: nat -> Interrupt, from: nat, to: nat) {
    || (exists k: nat | from <= k < to :: interrupts(k) == Fault)
    || (exists k: nat :: BusyTooLong(interrupts, from, k, to))
  }

  ghost predicate BusyTooLong(interrupts: nat -> Interrupt, from: nat, k: nat, to: nat) {
    from <= k && k + RETRY_TIME + 2 <= to && BusyRun(interrupts, k, k + RETRY_TIME + 2)
  }

  ghost predicate BusyRun(interrupts: nat -> Interrupt, lo: nat, hi: nat) {
    forall j: nat | lo <= j < hi :: interrupts(j) in {Busy, Locked}
  }

  lemma DisturbedWithin(interrupts: nat -> Interrupt, from: nat, lo: nat, hi: nat, to: nat)
    requires from <= lo <= hi <= to && Disturbed(interrupts, lo, hi)
    ensures Disturbed(interrupts, from, to)
  {
    if k: nat :| BusyTooLong(interrupts, lo, k, hi) { assert BusyTooLong(interrupts, from, k, to); }
  }
}
