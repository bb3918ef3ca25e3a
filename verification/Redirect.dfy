/**
 * Persistent `exec` redirections: a descriptor table with lowest-free allocation, backups of the
 * descriptors named so far, and a rollback on failure.
 */
module Redirect {
  import opened Text

  const MAX_REDIRECTIONS: nat := 8

  /** An open file description. */
  datatype File = File(id: nat)

  type Table = map<nat, File>

  /** A descriptor named by a redirection and the copy made of it, if one could be made. */
  datatype Backup = Backup(fd: nat, saved: Option<nat>)

  datatype State = State(table: Table, backups: seq<Backup>)

  /**
   * A redirection with what the outside world makes of it: the file opened, or None when the
   * target does not expand or open; the pipe of a here-document, and whether its text was written.
   */
  datatype Redirection =
    | Open(fd: nat, file: Option<File>)
    | Dup(fd: nat, source: nat)
    | Close(fd: nat)
    | Here(fd: nat, pipe: Option<File>, written: bool)
    | Unsupported(fd: nat)

  // ---------------------------------------------------------------- descriptors

  /** The lowest descriptor from `n` on that is not in use. */
  function LowestFrom(t: Table, n: nat): (r: nat)
    ensures n <= r && r !in t && forall k :: n <= k < r ==> k in t
    decreases |set k | k in t.Keys && k >= n|
  {
    if n !in t then n
    else
      var above, rest := set k | k in t.Keys && k >= n, set k | k in t.Keys && k >= n + 1;
      assert above == rest + {n};
      LowestFrom(t, n + 1)
  }

  function Lowest(t: Table): (r: nat)
    ensures r !in t && forall k :: 0 <= k < r ==> k in t
  {
    LowestFrom(t, 0)
  }

  /** `dup`: a copy of `fd` at the lowest free descriptor, if both exist. */
  function DupFd(t: Table, limit: nat, fd: nat): Option<nat> {
    if fd in t && Lowest(t) < limit then Some(Lowest(t)) else None
  }

  // ---------------------------------------------------------------- the source's steps

  predicate BackedUp(backups: seq<Backup>, fd: nat) { exists k :: 0 <= k < |backups| && backups[k].fd == fd }

  /** `ensure_persistent_fd_backup`: None when all slots are taken. */
  function Ensure(s: State, limit: nat, fd: nat): Option<State> {
    if BackedUp(s.backups, fd) then Some(s)
    else if |s.backups| >= MAX_REDIRECTIONS then None
    else
      var copy := DupFd(s.table, limit, fd);
      Some(State(if copy.Some? then s.table[copy.value := s.table[fd]] else s.table, s.backups + [Backup(fd, copy)]))
  }

  /** Restore one descriptor from its copy, or close it when there is none. */
  function Restore(t: Table, b: Backup): Table {
    if b.saved.None? then t - {b.fd}
    else if b.saved.value in t then t[b.fd := t[b.saved.value]] - {b.saved.value}
    else t
  }

  /** `rollback_persistent_fd_backups` */
  function RollBack(t: Table, backups: seq<Backup>): Table
    decreases |backups|
  {
    if backups == [] then t else RollBack(Restore(t, backups[0]), backups[1..])
  }

  /** `release_persistent_fd_backups` */
  function Release(t: Table, backups: seq<Backup>): Table
    decreases |backups|
  {
    if backups == [] then t
    else Release(if backups[0].saved.Some? then t - {backups[0].saved.value} else t, backups[1..])
  }

  /** Put `file`, open at `n`, in the place of `fd` and close `n`. */
  function Install(t: Table, limit: nat, n: nat, file: File, fd: nat): (Table, bool) {
    if fd >= limit then (t[n := file] - {n}, false) else (t[n := file][fd := file] - {n}, true)
  }

  /** What a redirection does once its descriptor is backed up. */
  function Perform(s: State, limit: nat, r: Redirection): (State, bool) {
    match r
    case Open(fd, None) => (s, false)
    case Open(fd, Some(file)) =>
      var n := Lowest(s.table);
      if n >= limit then (s, false)
      else
        var (t, ok) := Install(s.table, limit, n, file, fd);
        (s.(table := t), ok)
    case Dup(fd, source) =>
      (match Ensure(s, limit, source)
       case None => (s, false)
       case Some(s') =>
         if source in s'.table && fd < limit then (s'.(table := s'.table[fd := s'.table[source]]), true)
         else (s', false))
    case Close(fd) => (s.(table := s.table - {fd}), true)
    case Here(fd, None, _) => (s, false)
    case Here(fd, Some(file), written) =>
      var n := Lowest(s.table);
      var writeEnd := Lowest(s.table[n := file]);
      if n >= limit || writeEnd >= limit || !written then (s, false)
      else
        var (t, ok) := Install(s.table, limit, n, file, fd);
        (s.(table := t), ok)
    case Unsupported(fd) => (s, false)
  }

  function Apply(s: State, limit: nat, r: Redirection): (State, bool) {
    match Ensure(s, limit, r.fd)
    case None => (s, false)
    case Some(s') => Perform(s', limit, r)
  }

  /** All redirections in turn, up to the first that fails. */
  function ApplyAll(s: State, limit: nat, rs: seq<Redirection>): (State, bool)
    decreases |rs|
  {
    if rs == [] then (s, true)
    else
      var (s', ok) := Apply(s, limit, rs[0]);
      if ok then ApplyAll(s', limit, rs[1..]) else (s', false)
  }

  /** `apply_exec_redirections_persistently`: the table afterwards and whether it succeeded. */
  function ExecRedirections(t: Table, limit: nat, rs: seq<Redirection>): (Table, bool) {
    var (s, ok) := ApplyAll(State(t, []), limit, rs);
    (if ok then Release(s.table, s.backups) else RollBack(s.table, s.backups), ok)
  }
}
