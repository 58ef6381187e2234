/** The trusted record store: a file system in which every file is a sequence of records.  Operations may
    fail at any time. */
module SpillStore {
  import opened Floats

  type Path = string

  /** A binary64 number, or a record of some other length. */
  datatype Record = Number(value: Double) | Other(length: nat)

  type File = seq<Record>

  const HEADER: nat := 16
  const TRAILER: nat := 4
  const NUMBER_LENGTH: nat := 8
  const NUMBER_BYTES: nat := 28

  datatype Status = Ok | Argument | IoError | Overflow | DataError | MemoryError

  function RecordBytes(r: Record): nat { HEADER + (if r.Number? then NUMBER_LENGTH else r.length) + TRAILER }

  function Bytes(f: File): nat { if f == [] then 0 else Bytes(f[..|f| - 1]) + RecordBytes(f[|f| - 1]) }

  predicate AllNumbers(f: File) { forall i | 0 <= i < |f| :: f[i].Number? }

  lemma {:induction false} NumberBytes(f: File)
    requires AllNumbers(f)
    ensures Bytes(f) == NUMBER_BYTES * |f|
    decreases |f|
  {
    if f != [] {
      NumberBytes(f[..|f| - 1]);
    }
  }

  // ----- how much a disk holds -----

  function Most(a: nat, b: nat): nat { if a < b then b else a }

  /** The bytes of all files together. */
  ghost function Occupied(files: map<Path, File>): nat
    decreases |files|
  {
    if files == map[] then 0
    else
      var path :| path in files;
      Bytes(files[path]) + Occupied(files - {path})
  }

  lemma {:induction false} OccupiedPart(files: map<Path, File>, path: Path)
    requires path in files
    ensures Occupied(files) == Bytes(files[path]) + Occupied(files - {path})
    decreases |files|
  {
    var first :| first in files && Occupied(files) == Bytes(files[first]) + Occupied(files - {first});
    if first != path {
      OccupiedPart(files - {first}, path);
      OccupiedPart(files - {path}, first);
      assert files - {first} - {path} == files - {path} - {first};
    }
  }

  lemma {:induction false} OccupiedPut(files: map<Path, File>, path: Path, f: File)
    ensures Occupied(files[path := f]) == Occupied(files - {path}) + Bytes(f)
  {
    OccupiedPart(files[path := f], path);
    assert files[path := f] - {path} == files - {path};
  }

  lemma {:induction false} OccupiedLess(files: map<Path, File>, path: Path)
    ensures Occupied(files - {path}) <= Occupied(files)
  {
    if path in files { OccupiedPart(files, path); } else { assert files - {path} == files; }
  }

  /** What is left behind is all that has changed. */
  lemma {:induction false} UnchangedIff(before: map<Path, File>, files: map<Path, File>, orphans: set<Path>)
    requires orphans <= files.Keys && files - orphans == before
    ensures files == before <==> orphans == {}
    ensures files.Keys == before.Keys + orphans && before.Keys !! orphans
    ensures forall path | path in before :: files[path] == before[path]
  {
    forall path | path in before
      ensures files[path] == before[path]
    {
      assert path in files - orphans;
    }
    assert before.Keys == files.Keys - orphans;
  }

  // ----- the disk -----

  /** What the next attempt to create a file meets: it may be refused, or the file is created and then there is
      no memory to keep its name. */
  datatype Fate = Works | Refused | Unnamed

  ghost predicate Sound(files: map<Path, File>, torn: set<Path>, orphans: set<Path>, faulty: bool, peak: nat) {
    torn <= files.Keys && orphans <= files.Keys && (orphans != {} ==> faulty) && Occupied(files - orphans) <= peak
  }

  /** The files, and which of them have a torn tail: bytes behind their records that are no record.  Next to them,
      what happened: whether anything has failed, which files have been left behind because of that, and the most
      that all other files have held together. */
  class Disk {
    var files: map<Path, File>
    var torn: set<Path>
    var fate: Fate
    ghost var faulty: bool
    ghost var orphans: set<Path>
    ghost var peak: nat

    /** All files but those left behind. */
    ghost function Kept(): map<Path, File>
      reads this
    {
      files - orphans
    }

    /** The files with a torn tail, but for those left behind. */
    ghost function Torn(): set<Path>
      reads this
    {
      torn - orphans
    }

    ghost predicate Valid()
      reads this
    {
      Sound(files, torn, orphans, faulty, peak)
    }

    constructor (fate: Fate)
      ensures files == map[] && torn == {} && this.fate == fate && !faulty && orphans == {} && Valid()
    {
      files, torn, this.fate, faulty, orphans, peak := map[], {}, fate, false, {}, 0;
    }

    /** Starts the record anew. */
    ghost method Restart()
      requires torn <= files.Keys
      modifies this`faulty, this`orphans, this`peak
      ensures Valid() && !faulty && orphans == {} && peak == Occupied(files)
    {
      faulty, orphans, peak := false, {}, Occupied(files);
      assert Kept() == files;
    }

    predicate Exists(path: Path)
      reads this
    {
      path in files
    }

    /** Asks for memory. */
    method Allocate() returns (ok: bool)
      modifies this`faulty
      ensures if ok then faulty == old(faulty) else faulty
    {
      if * { faulty := true; return false; }
      ok := true;
    }

    /** Opens a new file for appending.  The file may be left behind if that fails. */
    method Open(path: Path, quota: nat) returns (status: Status)
      requires Valid() && path !in files
      modifies this`files, this`fate, this`faulty, this`orphans
      ensures Valid() && (old(faulty) ==> faulty)
      ensures status == Ok <==> HEADER + TRAILER <= quota && old(fate) == Works
      ensures status == Ok ==> files == old(files)[path := []] && orphans == old(orphans) && faulty == old(faulty)
      ensures status != Ok ==> Kept() == old(Kept()) && (quota < HEADER + TRAILER || faulty)
      ensures orphans <= old(orphans) + {path} && Torn() == old(Torn())
      ensures HEADER + TRAILER <= quota && old(fate) == Unnamed ==>
                status == MemoryError && files == old(files)[path := []] && orphans == old(orphans) + {path}
    {
      if quota < HEADER + TRAILER { return Argument; }
      var met := fate;
      fate := *;
      if met == Refused { faulty := true; return IoError; }
      files := files[path := []];
      if met == Unnamed {
        faulty, orphans := true, orphans + {path};
        assert Kept() == old(Kept());
        return MemoryError;
      }
      assert Kept() == old(Kept())[path := []];
      OccupiedPut(old(Kept()), path, []);
      OccupiedLess(old(Kept()), path);
      status := Ok;
    }

    /** Appends one number within the quota.  A failed write may leave anything of that size in the file, and a torn
        tail. */
    method Append(path: Path, value: Double, quota: nat) returns (status: Status)
      requires Valid() && path in files && path !in orphans && path !in torn && AllNumbers(files[path])
      modifies this`files, this`torn, this`faulty, this`peak
      ensures Valid() && (old(faulty) ==> faulty)
      ensures status == Ok ==>
                && files == old(files)[path := old(files)[path] + [Number(value)]] && faulty == old(faulty)
                && NUMBER_BYTES * |files[path]| <= quota
      ensures status != Ok ==> path in files && files - {path} == old(files) - {path}
      ensures torn - {path} == old(torn) && (status == Ok ==> torn == old(torn))
      ensures status != Ok && !faulty ==> status == Overflow && NUMBER_BYTES * (|old(files)[path]| + 1) > quota
      ensures peak <= Most(old(peak), Occupied(old(files) - {path} - orphans) + quota)
    {
      var before := files[path];
      NumberBytes(before);
      if NUMBER_BYTES * |before| > quota || NUMBER_BYTES > quota - NUMBER_BYTES * |before| { return Overflow; }
      status := Ok;
      var after := before + [Number(value)];
      NumberBytes(after);
      if * {
        after :| Bytes(after) <= Bytes(before) + NUMBER_BYTES;
        if * { torn := torn + {path}; }
        faulty := true;
        status := IoError;
      }
      Write(path, after, quota);
    }

    /** Gives a file new contents. */
    method Write(path: Path, after: File, quota: nat)
      requires Valid() && path in files && path !in orphans && Bytes(after) <= quota
      modifies this`files, this`peak
      ensures Valid() && files == old(files)[path := after]
      ensures peak <= Most(old(peak), Occupied(old(files) - {path} - orphans) + quota)
    {
      OccupiedPut(Kept(), path, after);
      assert Kept() - {path} == files - {path} - orphans;
      files := files[path := after];
      assert Kept() == old(Kept())[path := after];
      peak := Most(peak, Occupied(Kept()));
    }

    method Close(path: Path) returns (status: Status)
      modifies this`faulty
      ensures if status == Ok then faulty == old(faulty) else status == IoError && faulty
    {
      if * { faulty := true; return IoError; }
      status := Ok;
    }

    method Rename(from: Path, to: Path) returns (ok: bool)
      requires Valid() && from in files && from !in orphans && from !in torn && to !in files
      modifies this`files, this`faulty
      ensures Valid() && (old(faulty) ==> faulty)
      ensures ok ==> files == (old(files) - {from})[to := old(files)[from]] && faulty == old(faulty)
      ensures !ok ==> files == old(files) && faulty
    {
      if * { faulty := true; return false; }
      files := (files - {from})[to := files[from]];
      ok := true;
      OccupiedPart(old(Kept()), from);
      OccupiedPut(old(Kept()) - {from}, to, old(files)[from]);
      assert Kept() == (old(Kept()) - {from})[to := old(files)[from]];
      assert old(Kept()) - {from} - {to} == old(Kept()) - {from};
    }

    /** Removes a file, or leaves it behind. */
    method Remove(path: Path)
      requires Valid()
      modifies this`files, this`torn, this`faulty, this`orphans
      ensures Valid() && (old(faulty) ==> faulty)
      ensures Kept() == old(Kept()) - {path} && Torn() == old(Torn()) - {path}
      ensures orphans <= old(orphans) + {path} && files - {path} == old(files) - {path}
    {
      if path in files {
        if * { Leave(path); return; }
        files, torn, orphans := files - {path}, torn - {path}, orphans - {path};
        assert Kept() == old(Kept()) - {path};
        OccupiedLess(old(Kept()), path);
      } else {
        assert Kept() == Kept() - {path};
      }
    }

    /** A file that should have been removed is left behind. */
    ghost method Leave(path: Path)
      requires Valid()
      modifies this`faulty, this`orphans
      ensures Valid() && faulty
      ensures Kept() == old(Kept()) - {path} && orphans == old(orphans) + ({path} * files.Keys)
      ensures Torn() == old(Torn()) - {path}
    {
      faulty, orphans := true, orphans + ({path} * files.Keys);
      assert Kept() == old(Kept()) - {path};
      OccupiedLess(old(Kept()), path);
    }

    /** Opens a file for reading: the records of it must be within the limits.  A torn tail is cut off. */
    method OpenReader(path: Path, quota: nat) returns (status: Status)
      modifies this`torn, this`faulty
      ensures old(faulty) ==> faulty
      ensures status == Ok ==> path in files && Readable(files[path], quota) && faulty == old(faulty)
      ensures old(torn) - {path} <= torn <= old(torn) && (status == Ok ==> path !in torn)
      ensures status != Ok && !faulty ==> path !in files || !Readable(files[path], quota)
    {
      if quota < HEADER + TRAILER { return Argument; }
      if path !in files { return IoError; }
      if * { faulty := true; return IoError; }
      if !Readable(files[path], quota) { return Overflow; }
      torn := torn - {path};
      if * { faulty := true; return IoError; }
      status := Ok;
    }

    /** Reads the record at a position of an open file. */
    method ReadNext(path: Path, position: nat) returns (status: Status, record: Record, more: bool)
      requires path in files && position <= |files[path]|
      modifies this`faulty
      ensures old(faulty) ==> faulty
      ensures status == Ok ==>
                faulty == old(faulty) && more == (position < |files[path]|) && (more ==> record == files[path][position])
      ensures status != Ok ==> status == IoError && faulty
    {
      record, more := Other(0), false;
      if * { faulty := true; return IoError, record, more; }
      if position < |files[path]| { record, more := files[path][position], true; }
      status := Ok;
    }

    /** The size of a file. */
    method Measure(path: Path) returns (ok: bool, size: nat)
      requires path in files
      modifies this`faulty
      ensures if ok then size == Bytes(files[path]) && faulty == old(faulty) else faulty
    {
      size := Bytes(files[path]);
      if * { faulty := true; return false, size; }
      ok := true;
    }
  }

  /** No record is longer than a number, and the file is within the quota. */
  predicate Readable(f: File, quota: nat) {
    && HEADER + TRAILER <= quota && Bytes(f) <= quota
    && forall i | 0 <= i < |f| :: f[i].Other? ==> f[i].length <= NUMBER_LENGTH
  }
}
