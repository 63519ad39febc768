/** The preferences file and its backup: the file operations of a write and of a recovery, one at a time. */
module PreferencesDisk {
  datatype Value =
    | IntValue(i: int) | LongValue(l: int) | BoolValue(b: bool) | FloatValue(f: real) | DoubleValue(d: real)
    | StringValue(s: string) | SetValue(ss: set<string>)

  type Prefs = map<string, Value>

  /** A file is missing, incompletely written, or holds a whole map. */
  datatype File = Absent | Partial | Full(prefs: Prefs)
  datatype Disk = Disk(file: File, bak: File)

  /** Reading an unfinished file fails to parse and inserts nothing. */
  function Contents(f: File): Prefs { if f.Full? then f.prefs else map[] }

  // ---------------------------------------------------------------- LoadFromDisk

  datatype LoadPc = LookForBackup | RemoveFile | RestoreBackup | ReadFile

  /** One file operation of LoadFromDisk; `ReadFile` is its last step. */
  function LoadStep(d: Disk, pc: LoadPc): (Disk, LoadPc)
    requires pc != ReadFile
  {
    match pc
    case LookForBackup => (d, if d.bak == Absent then ReadFile else RemoveFile)
    case RemoveFile => (d.(file := Absent), RestoreBackup)
    case RestoreBackup => (Disk(d.bak, Absent), ReadFile)
  }

  /** What LoadFromDisk reads when nothing interrupts it. */
  function Load(d: Disk): Prefs {
    Contents((if d.bak == Absent then d else LoadStep(LoadStep(d, RemoveFile).0, RestoreBackup).0).file)
  }

  // ---------------------------------------------------------------- WriteToDiskFile

  datatype WritePc = LookForFile | MoveAside | WriteFile | DropBackup | Discard | Ended(outcome: Outcome)
  datatype Outcome = Written | Skipped | Failed

  /** What WriteSettingXml does next: some bytes, the last bytes, or an error. */
  datatype Pen = Scribble | Complete | Error

  /** One file operation of WriteToDiskFile for the map `m`; `wanted` is the answer of the generation check. */
  function WriteStep(d: Disk, pc: WritePc, m: Prefs, wanted: bool, pen: Pen): (Disk, WritePc)
    requires !pc.Ended?
  {
    match pc
    case LookForFile =>
      (d, if d.file == Absent then WriteFile else if wanted then MoveAside else Ended(Skipped))
    case MoveAside =>
      (if d.bak != Absent then d.(file := Absent) else Disk(Absent, d.file), WriteFile)
    case WriteFile =>
      (match pen
       case Scribble => (d.(file := Partial), WriteFile)
       case Complete => (d.(file := Full(m)), DropBackup)
       case Error => (d, Discard))
    case DropBackup => (d.(bak := Absent), Ended(Written))
    case Discard => (d.(file := Absent), Ended(Failed))
  }

  /** How many file operations are at most still to come, if none is an incomplete write. */
  function Remaining(pc: WritePc): nat {
    match pc
    case LookForFile => 4
    case MoveAside => 3
    case WriteFile => 2
    case DropBackup => 1
    case Discard => 1
    case Ended(_) => 0
  }

  /** All file operations of a write from `pc` on; `saved` tells how writing the file ends. */
  function WriteAll(d: Disk, pc: WritePc, m: Prefs, wanted: bool, saved: bool): (Disk, Outcome)
    decreases Remaining(pc)
  {
    if pc.Ended? then (d, pc.outcome)
    else
      var (d', pc') := WriteStep(d, pc, m, wanted, if saved then Complete else Error);
      WriteAll(d', pc', m, wanted, saved)
  }

  /** Incomplete writes in between make no difference. */
  lemma ScribblesDoNotMatter(d: Disk, m: Prefs, wanted: bool, saved: bool)
    ensures var (d', pc') := WriteStep(d, WriteFile, m, wanted, Scribble);
      pc' == WriteFile && WriteAll(d', pc', m, wanted, saved) == WriteAll(d, WriteFile, m, wanted, saved)
  {
    var pen := if saved then Complete else Error;
    var (d', pc') := WriteStep(d, WriteFile, m, wanted, Scribble);
    var (a, pa) := WriteStep(d, WriteFile, m, wanted, pen);
    var (b, pb) := WriteStep(d', WriteFile, m, wanted, pen);
    assert WriteAll(a, pa, m, wanted, saved) == WriteAll(b, pb, m, wanted, saved) by {
      assert pa == pb && WriteStep(a, pa, m, wanted, pen) == WriteStep(b, pb, m, wanted, pen);
    }
  }

  /** The commit point of a write of `m`: the step after which its whole file first stands alone. */
  predicate Commits(d: Disk, pc: WritePc, pen: Pen) {
    || (pc == WriteFile && pen == Complete && d.bak == Absent)
    || (pc == DropBackup && d.bak != Absent)
  }

  /** The disk between two operations of a write. */
  predicate AtPc(d: Disk, pc: WritePc, m: Prefs) {
    match pc
    case MoveAside => d.file != Absent
    case WriteFile => !d.file.Full?
    case Discard => !d.file.Full?
    case DropBackup => d.file == Full(m)
    case Ended(Written) => d.file == Full(m) && d.bak == Absent
    case _ => true
  }

  /** A write step keeps what a load would read until its commit point, and there installs the whole map. */
  lemma WriteStepIsAtomic(d: Disk, pc: WritePc, m: Prefs, wanted: bool, pen: Pen)
    requires !pc.Ended? && AtPc(d, pc, m)
    ensures AtPc(WriteStep(d, pc, m, wanted, pen).0, WriteStep(d, pc, m, wanted, pen).1, m)
    ensures Load(WriteStep(d, pc, m, wanted, pen).0) == if Commits(d, pc, pen) then m else Load(d)
  {
  }

  /** No step of a recovery changes what the recovery will read. */
  lemma LoadStepKeeps(d: Disk, pc: LoadPc)
    requires pc != ReadFile && (pc in {RemoveFile, RestoreBackup} ==> d.bak != Absent)
    ensures Load(LoadStep(d, pc).0) == Load(d)
    ensures LoadStep(d, pc).1 in {RemoveFile, RestoreBackup} ==> LoadStep(d, pc).0.bak != Absent
    ensures LoadStep(d, pc).1 == ReadFile ==> LoadStep(d, pc).0.bak == Absent
    // The backup is renamed only where no file is.
    ensures LoadStep(d, pc).1 == RestoreBackup ==> LoadStep(d, pc).0.file == Absent
  {
  }

  /** What the operations of a write amount to. */
  lemma StepsOfWrite(d: Disk, m: Prefs, wanted: bool, saved: bool)
    ensures WriteAll(d, LookForFile, m, wanted, saved) ==
      if d.file != Absent && !wanted then (d, Skipped)
      else if saved then (Disk(Full(m), Absent), Written)
      else (Disk(Absent, if d.file != Absent && d.bak == Absent then d.file else d.bak), Failed)
  {
    var pen := if saved then Complete else Error;
    var (d1, pc1) := WriteStep(d, LookForFile, m, wanted, pen);
    if pc1 == MoveAside {
      var (d2, pc2) := WriteStep(d1, pc1, m, wanted, pen);
      StepsOfWriteFile(d2, m, wanted, saved);
    } else if pc1 == WriteFile {
      StepsOfWriteFile(d1, m, wanted, saved);
    }
  }

  lemma StepsOfWriteFile(d: Disk, m: Prefs, wanted: bool, saved: bool)
    ensures WriteAll(d, WriteFile, m, wanted, saved) ==
      if saved then (Disk(Full(m), Absent), Written) else (Disk(Absent, d.bak), Failed)
  {
    var pen := if saved then Complete else Error;
    var (d1, pc1) := WriteStep(d, WriteFile, m, wanted, pen);
    var (d2, pc2) := WriteStep(d1, pc1, m, wanted, pen);
    assert WriteAll(d2, pc2, m, wanted, saved) == (d2, pc2.outcome);
  }

  // ---------------------------------------------------------------- the uninterrupted operations

  /** The file and its backup, updated in place by one thread. */
  class Files {
    var file: File
    var bak: File

    constructor (d: Disk)
      ensures State() == d
    {
      file, bak := d.file, d.bak;
    }

    function State(): Disk
      reads this
    {
      Disk(file, bak)
    }

    method LoadFromDisk() returns (prefs: Prefs)
      modifies this
      ensures prefs == Load(old(State())) == Contents(file) && bak == Absent
    {
      if bak != Absent {
        file := Absent;                 // remove
        file, bak := bak, Absent;       // rename
      }
      prefs := map[];
      if file != Absent {
        prefs := Contents(file);
      }
    }

    /** `saved` tells whether WriteSettingXml reports success. */
    method WriteToDiskFile(m: Prefs, wanted: bool, saved: bool) returns (o: Outcome)
      modifies this
      ensures o == (if old(file) != Absent && !wanted then Skipped else if saved then Written else Failed)
      ensures o == Skipped ==> State() == old(State())
      ensures o == Written ==> State() == Disk(Full(m), Absent)
      ensures o == Failed ==> file == Absent && Load(State()) == Load(old(State()))
      ensures (State(), o) == WriteAll(old(State()), LookForFile, m, wanted, saved)
    {
      StepsOfWrite(State(), m, wanted, saved);
      if file != Absent {
        if !wanted { return Skipped; }
        if bak != Absent {
          file := Absent;               // remove
        } else {
          file, bak := Absent, file;    // rename
        }
      }
      file := Partial;
      if saved {
        file := Full(m);
        if bak != Absent { bak := Absent; }
        o := Written;
      } else {
        if file != Absent { file := Absent; }
        o := Failed;
      }
    }
  }
}
