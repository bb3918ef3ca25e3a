/**
 * Persistent redirections as the source runs them: a process table and a table of backup slots,
 * changed call by call.
 */
module RedirectRuntime {
  import opened Text
  import opened Redirect

  /** The descriptor table of the process, with the calls the shell makes on it. */
  class Process {
    const limit: nat
    var table: Table

    constructor (limit: nat, table: Table)
      ensures this.limit == limit && this.table == table
    {
      this.limit, this.table := limit, table;
    }

    method LowestFree() returns (n: nat)
      ensures n == Lowest(table)
    {
      n := 0;
      while n in table
        invariant LowestFrom(table, 0) == LowestFrom(table, n)
        decreases Lowest(table) - n
      {
        n := n + 1;
      }
    }

    /** `dup` */
    method DupDescriptor(fd: nat) returns (copy: Option<nat>)
      modifies this
      ensures copy == DupFd(old(table), limit, fd)
      ensures table == if copy.Some? then old(table)[copy.value := old(table)[fd]] else old(table)
    {
      var n := LowestFree();
      if fd !in table || n >= limit { return None; }
      table := table[n := table[fd]];
      return Some(n);
    }

    /** `dup2` */
    method DupOnto(source: nat, fd: nat) returns (ok: bool)
      modifies this
      ensures ok == (source in old(table) && fd < limit)
      ensures table == if ok then old(table)[fd := old(table)[source]] else old(table)
    {
      ok := source in table && fd < limit;
      if ok { table := table[fd := table[source]]; }
    }

    /** `close` */
    method CloseDescriptor(fd: nat)
      modifies this
      ensures table == old(table) - {fd}
    {
      table := table - {fd};
    }

    /** `open`, given the file that the outside world makes of the target. */
    method OpenFile(file: Option<File>) returns (n: Option<nat>)
      modifies this
      ensures n == if file.Some? && Lowest(old(table)) < limit then Some(Lowest(old(table))) else None
      ensures table == if n.Some? then old(table)[n.value := file.value] else old(table)
    {
      var free := LowestFree();
      if file.None? || free >= limit { return None; }
      table := table[free := file.value];
      return Some(free);
    }
  }

  class Redirector {
    const process: Process
    var backups: seq<Backup>

    constructor (process: Process)
      ensures this.process == process && backups == []
    {
      this.process, backups := process, [];
    }

    ghost function Current(): (s: State)
      reads this, process
    {
      State(process.table, backups)
    }

    /** `ensure_persistent_fd_backup` */
    method EnsureBackup(fd: nat) returns (ok: bool)
      modifies this, process
      ensures match Ensure(old(Current()), process.limit, fd)
              case None => !ok && Current() == old(Current())
              case Some(s) => ok && Current() == s
    {
      var i := 0;
      while i < |backups|
        invariant i <= |backups| && forall k :: 0 <= k < i ==> backups[k].fd != fd
      {
        if backups[i].fd == fd { return true; }
        i := i + 1;
      }
      if |backups| >= MAX_REDIRECTIONS { return false; }
      var copy := process.DupDescriptor(fd);
      backups := backups + [Backup(fd, copy)];
      return true;
    }

    /** `rollback_persistent_fd_backups` */
    method RollBackAll()
      requires forall k :: 0 <= k < |backups| ==> backups[k].fd < process.limit || backups[k].saved.None?
      modifies this, process
      ensures process.table == RollBack(old(process.table), old(backups)) && backups == []
    {
      while backups != []
        invariant RollBack(process.table, backups) == RollBack(old(process.table), old(backups))
        invariant forall k :: 0 <= k < |backups| ==> backups[k].fd < process.limit || backups[k].saved.None?
        decreases |backups|
      {
        var b := backups[0];
        ghost var before := process.table;
        if b.saved.Some? {
          var done := process.DupOnto(b.saved.value, b.fd);
          process.CloseDescriptor(b.saved.value);
        } else {
          process.CloseDescriptor(b.fd);
        }
        assert process.table == Restore(before, b);
        backups := backups[1..];
      }
    }

    /** `release_persistent_fd_backups` */
    method ReleaseAll()
      modifies this, process
      ensures process.table == Release(old(process.table), old(backups)) && backups == []
    {
      while backups != []
        invariant Release(process.table, backups) == Release(old(process.table), old(backups))
        decreases |backups|
      {
        if backups[0].saved.Some? { process.CloseDescriptor(backups[0].saved.value); }
        backups := backups[1..];
      }
    }

    /** Put the file open at `n` in the place of `fd` and close `n`. */
    method InstallAt(n: nat, fd: nat, ghost before: Table, ghost file: File) returns (ok: bool)
      requires process.table == before[n := file]
      modifies process
      ensures (process.table, ok) == Install(before, process.limit, n, file, fd)
    {
      ok := process.DupOnto(n, fd);
      process.CloseDescriptor(n);
    }

    /** One case of the switch, after the descriptor has been backed up. */
    method PerformOne(r: Redirection) returns (ok: bool)
      modifies this, process
      ensures (Current(), ok) == Perform(old(Current()), process.limit, r)
    {
      ghost var before := process.table;
      match r {
        case Open(fd, file) =>
          var n := process.OpenFile(file);
          if n.None? { return false; }
          ok := InstallAt(n.value, fd, before, file.value);
        case Dup(fd, source) =>
          ok := EnsureBackup(source);
          if ok { ok := process.DupOnto(source, fd); }
        case Close(fd) =>
          process.CloseDescriptor(fd);
          ok := true;
        case Here(fd, pipe, written) =>
          ok := HereDocument(fd, pipe, written);
        case Unsupported(_) =>
          ok := false;
      }
    }

    /** A here-document or here-string through a pipe. */
    method HereDocument(fd: nat, pipe: Option<File>, written: bool) returns (ok: bool)
      modifies process
      ensures (Current(), ok) == Perform(old(Current()), process.limit, Here(fd, pipe, written))
    {
      ghost var before := process.table;
      var readEnd := process.OpenFile(pipe);
      if readEnd.None? { return false; }
      var writeEnd := process.OpenFile(pipe);
      if writeEnd.None? || !written {
        process.CloseDescriptor(readEnd.value);
        if writeEnd.Some? { process.CloseDescriptor(writeEnd.value); }
        assert process.table == before;
        return false;
      }
      process.CloseDescriptor(writeEnd.value);
      assert process.table == before[readEnd.value := pipe.value];
      ok := InstallAt(readEnd.value, fd, before, pipe.value);
    }

    /** `apply_exec_redirections_persistently` */
    method ApplyPersistently(rs: seq<Redirection>) returns (ok: bool)
      requires backups == [] && Bounded(Current(), process.limit)
      modifies this, process
      ensures (process.table, ok) == ExecRedirections(old(process.table), process.limit, rs)
    {
      ghost var all := ApplyAll(Current(), process.limit, rs);
      var i := 0;
      while i < |rs|
        invariant i <= |rs| && Bounded(Current(), process.limit) && all == ApplyAll(Current(), process.limit, rs[i..])
      {
        ApplyBounded(Current(), process.limit, rs[i]);
        assert rs[i..][1..] == rs[i + 1..];
        ok := EnsureBackup(rs[i].fd);
        if ok { ok := PerformOne(rs[i]); }
        if !ok {
          RollBackAll();
          return false;
        }
        i := i + 1;
      }
      ReleaseAll();
      return true;
    }
  }

  /** Every open descriptor, and every descriptor that was open when it was backed up, is below the limit. */
  predicate Bounded(s: State, limit: nat) {
    (forall n :: n in s.table ==> n < limit)
    && forall k :: 0 <= k < |s.backups| ==> s.backups[k].fd < limit || s.backups[k].saved.None?
  }

  lemma ApplyBounded(s: State, limit: nat, r: Redirection)
    requires Bounded(s, limit)
    ensures Bounded(Apply(s, limit, r).0, limit)
  {
  }
}
