/**
 * The file store: a write goes to a fresh temporary name and is renamed into place. Writes,
 * reads and deletes interleave at every file operation, any of which may fail, and a write
 * may be abandoned at any await, in which case the operation under way still happens.
 */
module AtomicFs {
  import opened Options
  import opened Numerals

  type Bytes = seq<int>

  type Files = map<string, Bytes>

  function TempName(path: string, pid: nat, n: nat): string {
    path + ".tmp-" + Numeral(pid, Decimal) + ['-'] + Numeral(n, Decimal)
  }

  lemma TempNameInjective(p: string, q: string, pid: nat, m: nat, n: nat)
    requires TempName(p, pid, m) == TempName(q, pid, n)
    ensures m == n
  {
    SuffixUnique(p + ".tmp-" + Numeral(pid, Decimal), q + ".tmp-" + Numeral(pid, Decimal), '-', m, n, Decimal);
  }

  /** What a temporary name looks like: it is beside the target. */
  lemma TempNameText(path: string)
    ensures TempName(path, 412, 7) == path + ".tmp-412-7"
  {
    assert Numeral(41, Decimal) == "41" && Numeral(412, Decimal) == "412" && Numeral(7, Decimal) == "7";
    assert ".tmp-" + "412" + ['-'] + "7" == ".tmp-412-7";
    Assoc(path, ".tmp-", "412");
  }

  /** The name of a temporary file of this process. */
  ghost predicate TempShaped(path: string, pid: nat) {
    exists p: string, n: nat :: path == TempName(p, pid, n)
  }

  /** What a read of `path` answers; a missing file is no error. */
  function ReadResult(files: Files, path: string, ioOk: bool): Result<Option<Bytes>, ()> {
    if path !in files then Ok(None) else if ioOk then Ok(Some(files[path])) else Err(())
  }

  // ----- One call with nothing beside it --------------------------------------------------------

  /** Which operations of one write succeed; a write that fails may leave `wrote` bytes, or no file. */
  datatype Faults = Faults(dirOk: bool, writeOk: bool, wrote: Option<nat>, renameOk: bool, cleanupOk: bool)

  class NativeFs {
    var files: Files
    var counter: nat
    const pid: nat

    method WriteFile(path: string, bytes: Bytes, faults: Faults) returns (ok: bool)
      requires !TempShaped(path, pid)
      modifies this
      ensures ok <==> faults.dirOk && faults.writeOk && faults.renameOk
      ensures counter == old(counter) + if faults.dirOk then 1 else 0
      ensures forall f :: f != path && f != TempName(path, pid, old(counter)) ==>
        (f in files <==> f in old(files)) && (f in files ==> files[f] == old(files)[f])
      ensures if ok then path in files && files[path] == bytes
        else (path in files <==> path in old(files)) && (path in files ==> files[path] == old(files)[path])
      ensures ok || (faults.dirOk && faults.cleanupOk) ==> TempName(path, pid, old(counter)) !in files
    {
      if !faults.dirOk {
        return false;
      }
      var tmp := TempName(path, pid, counter);
      counter := counter + 1;
      assert TempShaped(tmp, pid);
      if !faults.writeOk {
        if faults.wrote.Some? && faults.wrote.value <= |bytes| {
          files := files[tmp := bytes[..faults.wrote.value]];
        }
        if faults.cleanupOk {
          files := files - {tmp};
        }
        return false;
      }
      files := files[tmp := bytes];
      if !faults.renameOk {
        if faults.cleanupOk {
          files := files - {tmp};
        }
        return false;
      }
      files := files[path := files[tmp]] - {tmp};
      return true;
    }

    /** Deleting what is not there is no error. */
    method DeleteFile(path: string, ioOk: bool) returns (ok: bool)
      modifies `files
      ensures ok <==> path !in old(files) || ioOk
      ensures files == if ok then old(files) - {path} else old(files)
    {
      if path !in files {
        return true;
      }
      if !ioOk {
        return false;
      }
      files := files - {path};
      return true;
    }
  }

  // ----- Steps --------------------------------------------------------------------------------------

  datatype End = DirFailed | Renamed | Cleaned | CleanupFailed | Stopped

  datatype Phase =
    | MakingDir
    | Writing(n: nat, written: Option<nat>)
    | Renaming(n: nat)
    | Cleaning(n: nat)
    | Finished(name: Option<nat>, end: End)

  /** `live` is false once the caller has gone: the operation under way is then the last. */
  datatype Writer = Writer(path: string, bytes: Bytes, live: bool, phase: Phase)

  /** What happened to targets, in order: the history an atomic store would have. */
  datatype Event = Put(path: string, bytes: Bytes) | Delete(path: string)

  datatype World = World(files: Files, counter: nat, writers: map<nat, Writer>, log: seq<Event>)

  datatype Step =
    | Begin(w: nat, path: string, bytes: Bytes)
    | DirReady(w: nat)
    | DirFails(w: nat)
    | Write(w: nat, upTo: nat)
    | WriteDone(w: nat)
    | WriteFails(w: nat)
    | RenameDone(w: nat)
    | RenameFails(w: nat)
    | CleanDone(w: nat)
    | CleanFails(w: nat)
    | Abandon(w: nat)
    | Remove(path: string)

  ghost predicate Enabled(pid: nat, s: World, step: Step) {
    match step
    case Begin(w, path, _) => w !in s.writers && !TempShaped(path, pid)
    case Remove(path) => path in s.files && !TempShaped(path, pid)
    case DirReady(w) => w in s.writers && s.writers[w].phase == MakingDir
    case DirFails(w) => w in s.writers && s.writers[w].phase == MakingDir
    case Write(w, upTo) =>
      && w in s.writers && s.writers[w].phase.Writing? && upTo <= |s.writers[w].bytes|
      && (s.writers[w].phase.written.Some? ==> s.writers[w].phase.written.value <= upTo)
    case WriteDone(w) =>
      w in s.writers && s.writers[w].phase.Writing? && s.writers[w].phase.written == Some(|s.writers[w].bytes|)
    case WriteFails(w) => w in s.writers && s.writers[w].phase.Writing?
    case RenameDone(w) =>
      && w in s.writers && s.writers[w].phase.Renaming?
      && TempName(s.writers[w].path, pid, s.writers[w].phase.n) in s.files
    case RenameFails(w) => w in s.writers && s.writers[w].phase.Renaming?
    case CleanDone(w) => w in s.writers && s.writers[w].phase.Cleaning?
    case CleanFails(w) => w in s.writers && s.writers[w].phase.Cleaning?
    case Abandon(w) => w in s.writers
  }

  function SetPhase(s: World, w: nat, phase: Phase): World
    requires w in s.writers
  {
    s.(writers := s.writers[w := s.writers[w].(phase := phase)])
  }

  /** On to the next operation, unless the caller has gone. */
  function Onward(s: World, w: nat, n: nat, phase: Phase): World
    requires w in s.writers
  {
    SetPhase(s, w, if s.writers[w].live then phase else Finished(Some(n), Stopped))
  }

  ghost function Next(pid: nat, s: World, step: Step): World
    requires Enabled(pid, s, step)
  {
    match step
    case Begin(w, path, bytes) => s.(writers := s.writers[w := Writer(path, bytes, true, MakingDir)])
    case DirReady(w) =>
      if s.writers[w].live then SetPhase(s, w, Writing(s.counter, None)).(counter := s.counter + 1)
      else SetPhase(s, w, Finished(None, Stopped))
    case DirFails(w) => SetPhase(s, w, Finished(None, DirFailed))
    case Write(w, upTo) =>
      var k := s.writers[w];
      SetPhase(s, w, Writing(k.phase.n, Some(upTo))).(
        files := s.files[TempName(k.path, pid, k.phase.n) := k.bytes[..upTo]])
    case WriteDone(w) => Onward(s, w, s.writers[w].phase.n, Renaming(s.writers[w].phase.n))
    case WriteFails(w) => Onward(s, w, s.writers[w].phase.n, Cleaning(s.writers[w].phase.n))
    case RenameDone(w) =>
      var k := s.writers[w];
      var tmp := TempName(k.path, pid, k.phase.n);
      SetPhase(s, w, Finished(Some(k.phase.n), Renamed)).(
        files := s.files[k.path := s.files[tmp]] - {tmp}, log := s.log + [Put(k.path, s.files[tmp])])
    case RenameFails(w) => Onward(s, w, s.writers[w].phase.n, Cleaning(s.writers[w].phase.n))
    case CleanDone(w) =>
      var k := s.writers[w];
      SetPhase(s, w, Finished(Some(k.phase.n), Cleaned)).(files := s.files - {TempName(k.path, pid, k.phase.n)})
    case CleanFails(w) => SetPhase(s, w, Finished(Some(s.writers[w].phase.n), CleanupFailed))
    case Abandon(w) => s.(writers := s.writers[w := s.writers[w].(live := false)])
    case Remove(path) => s.(files := s.files - {path}, log := s.log + [Delete(path)])
  }
}
