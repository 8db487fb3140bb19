/** Page-table entries and nodes, as the memory management unit sees them. */
module Mmu {

  /** One access bit of a page-table entry. */
  datatype Flag =
    | Present | Writable | User | WriteThrough | NoCache | Accessed | Dirty | Huge | Global
    | Available0 | Available1 | Available2 | Executable

  type Flags = set<Flag>

  const FULL_ACCESS: Flags := {Executable, Present, User, Writable}

  const ENTRY_COUNT := 512
  const LEAF_LEVEL := 0
  const ROOT_LEVEL := 3

  /** A page-table entry: the frame it points at and its flags (with the sense of
      `Executable` already un-inverted). */
  datatype Pte = Pte(frame: nat, flags: Flags) {
    predicate IsPresent() { Present in flags }
    predicate IsHuge() { Huge in flags }
    predicate IsUser() { User in flags }

    /** The entry points at an ordinary 4 KiB frame, and so owns one reference to it. */
    predicate Counted() { IsPresent() && !IsHuge() }

    /** `PageTableEntry::set_frame()`. */
    static function Of(frame: nat, flags: Flags): Pte { Pte(frame, flags + {Present}) }
  }

  /** A cleared entry. Its raw value is zero, which reads back as "executable, not present". */
  const EMPTY := Pte(0, {Executable})

  type Table = t: seq<Pte> | |t| == ENTRY_COUNT witness seq(ENTRY_COUNT, _ => EMPTY)

  function NoEntries(): (t: Table)
    ensures forall i :: 0 <= i < ENTRY_COUNT ==> t[i] == EMPTY
  {
    seq(ENTRY_COUNT, _ => EMPTY)
  }

  const EMPTY_TABLE: Table := NoEntries()

  /** Physical memory: the contents of each frame, read as 512 machine words. */
  type Memory = seq<Table>

  datatype Error = NoFrame | NoPage | Unimplemented | InvalidArgument | PermissionDenied | Overflow | InvalidAlignment

  datatype Option<+T> = None | Some(value: T)

  datatype Result<+T> = Ok(value: T) | Err(error: Error)
}
