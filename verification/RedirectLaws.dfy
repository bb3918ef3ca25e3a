/** Persistent redirections as a transaction: what success and failure leave in the descriptor table. */
module RedirectLaws {
  import opened Text
  import opened Redirect

  // ---------------------------------------------------------------- the scope of the law

  function Named(r: Redirection): set<nat> {
    if r.Dup? then {r.fd, r.source} else {r.fd}
  }

  /** The redirection only names open descriptors and does not close one. */
  predicate InScope(t: Table, r: Redirection) {
    !r.Close? && Named(r) <= t.Keys
  }

  predicate AllInScope(t: Table, rs: seq<Redirection>) {
    forall k :: 0 <= k < |rs| ==> InScope(t, rs[k])
  }

  predicate Below(t: Table, limit: nat) { forall k :: k in t ==> k < limit }

  /** What a redirection means: its descriptor refers to another file, or to none. */
  function Effect(t: Table, r: Redirection): Table {
    match r
    case Open(fd, Some(file)) => t[fd := file]
    case Here(fd, Some(file), _) => t[fd := file]
    case Dup(fd, source) => if source in t then t[fd := t[source]] else t
    case Close(fd) => t - {fd}
    case _ => t
  }

  function Effects(t: Table, rs: seq<Redirection>): Table
    decreases |rs|
  {
    if rs == [] then t else Effects(Effect(t, rs[0]), rs[1..])
  }

  // ---------------------------------------------------------------- the invariant

  /** The copies made so far are of the entry table's files, at distinct descriptors free on entry. */
  predicate Copies(t: Table, s: State) {
    (forall i, j :: 0 <= i < j < |s.backups| ==> s.backups[i].fd != s.backups[j].fd)
    && (forall i, j :: 0 <= i < j < |s.backups| && s.backups[i].saved.Some? ==>
      s.backups[i].saved != s.backups[j].saved)
    && (forall i :: 0 <= i < |s.backups| ==> Copy(t, s.table, s.backups[i]))
  }

  predicate Copy(t: Table, now: Table, b: Backup) {
    b.fd in t && (b.saved.Some? ==> b.saved.value !in t && b.saved.value in now && now[b.saved.value] == t[b.fd])
  }

  predicate IsCopy(backups: seq<Backup>, n: nat) { exists k :: 0 <= k < |backups| && backups[k].saved == Some(n) }

  /** The table is `e`, which differs from the entry table at backed-up descriptors only, and the copies. */
  predicate Tracks(t: Table, e: Table, s: State) {
    e.Keys == t.Keys
    && (forall n :: n in t ==> n in s.table && s.table[n] == e[n])
    && (forall n :: n in s.table && n !in t ==> IsCopy(s.backups, n))
    && (forall n :: n in t && !BackedUp(s.backups, n) ==> e[n] == t[n])
  }

  predicate Inv(t: Table, e: Table, s: State) { Copies(t, s) && Tracks(t, e, s) }

  lemma MoreBackups(bs: seq<Backup>, b: Backup, n: nat)
    ensures BackedUp(bs + [b], n) == (BackedUp(bs, n) || b.fd == n)
    ensures IsCopy(bs + [b], n) == (IsCopy(bs, n) || b.saved == Some(n))
  {
    var all := bs + [b];
    assert all[|bs|] == b;
    if BackedUp(bs, n) {
      var k :| 0 <= k < |bs| && bs[k].fd == n;
      assert all[k].fd == n;
    }
    if IsCopy(bs, n) {
      var k :| 0 <= k < |bs| && bs[k].saved == Some(n);
      assert all[k].saved == Some(n);
    }
  }

  lemma NewBackupTracks(t: Table, e: Table, s: State, limit: nat, fd: nat)
    requires Inv(t, e, s) && fd in t && !BackedUp(s.backups, fd) && |s.backups| < MAX_REDIRECTIONS
    ensures Tracks(t, e, Ensure(s, limit, fd).value)
  {
    var s' := Ensure(s, limit, fd).value;
    var b := Backup(fd, DupFd(s.table, limit, fd));
    forall n: nat ensures n in s'.table && n !in t ==> IsCopy(s'.backups, n)
                  ensures n in t && !BackedUp(s'.backups, n) ==> e[n] == t[n]
    {
      MoreBackups(s.backups, b, n);
    }
  }

  /** A copy stays one when a descriptor that was free is taken. */
  lemma CopyStays(t: Table, now: Table, b: Backup, n: nat, file: File)
    requires Copy(t, now, b) && n !in now
    ensures Copy(t, now[n := file], b) && b.saved != Some(n)
  {
  }

  lemma NewBackupCopies(t: Table, e: Table, s: State, limit: nat, fd: nat)
    requires Inv(t, e, s) && fd in t && !BackedUp(s.backups, fd) && |s.backups| < MAX_REDIRECTIONS
    ensures Copies(t, Ensure(s, limit, fd).value)
  {
    var b, n := Backup(fd, DupFd(s.table, limit, fd)), Lowest(s.table);
    var s' := Ensure(s, limit, fd).value;
    assert s'.backups == s.backups + [b];
    assert Copy(t, s'.table, b);
    forall i | 0 <= i < |s.backups|
      ensures Copy(t, s'.table, s.backups[i]) && s.backups[i].fd != fd
      ensures (s.backups[i].saved.Some? ==> s.backups[i].saved != b.saved)
    {
      CopyStays(t, s.table, s.backups[i], n, s.table[fd]);
    }
  }

  lemma EnsureKeeps(t: Table, e: Table, s: State, limit: nat, fd: nat)
    requires Inv(t, e, s) && fd in t && Ensure(s, limit, fd).Some?
    ensures Inv(t, e, Ensure(s, limit, fd).value) && BackedUp(Ensure(s, limit, fd).value.backups, fd)
    ensures forall n: nat :: BackedUp(s.backups, n) ==> BackedUp(Ensure(s, limit, fd).value.backups, n)
  {
    if !BackedUp(s.backups, fd) {
      NewBackupTracks(t, e, s, limit, fd);
      NewBackupCopies(t, e, s, limit, fd);
      forall n: nat | BackedUp(s.backups, n) || n == fd ensures BackedUp(Ensure(s, limit, fd).value.backups, n) {
        MoreBackups(s.backups, Backup(fd, DupFd(s.table, limit, fd)), n);
      }
    }
  }

  lemma ChangeCopies(t: Table, s: State, fd: nat, file: File)
    requires Copies(t, s) && fd in t
    ensures Copies(t, s.(table := s.table[fd := file]))
  {
    var s' := s.(table := s.table[fd := file]);
    forall i | 0 <= i < |s.backups| ensures Copy(t, s'.table, s'.backups[i]) {
      assert Copy(t, s.table, s.backups[i]);
    }
  }

  /** Changing a backed-up descriptor of the entry table, and it alone, keeps the invariant. */
  lemma ChangeKeeps(t: Table, e: Table, s: State, fd: nat, file: File)
    requires Inv(t, e, s) && fd in t && BackedUp(s.backups, fd)
    ensures Inv(t, e[fd := file], s.(table := s.table[fd := file]))
  {
    ChangeCopies(t, s, fd, file);
  }

  lemma InstallIsChange(t: Table, limit: nat, n: nat, file: File, fd: nat)
    requires n !in t && fd in t
    ensures Install(t, limit, n, file, fd) == if fd >= limit then (t, false) else (t[fd := file], true)
  {
    assert t[n := file] - {n} == t;
    assert t[n := file][fd := file] - {n} == t[fd := file];
  }

  /** A redirection that succeeds has its effect; one that fails has none but for new backups. */
  lemma PerformKeeps(t: Table, e: Table, s: State, limit: nat, r: Redirection)
    requires Inv(t, e, s) && InScope(t, r) && BackedUp(s.backups, r.fd)
    ensures var (s', ok) := Perform(s, limit, r); Inv(t, if ok then Effect(e, r) else e, s')
  {
    match r
    case Open(fd, file) => OpenKeeps(t, e, s, limit, fd, file);
    case Here(fd, pipe, written) => HereKeeps(t, e, s, limit, fd, pipe, written);
    case Dup(fd, source) => DupKeeps(t, e, s, limit, fd, source);
    case Unsupported(_) =>
  }

  lemma OpenKeeps(t: Table, e: Table, s: State, limit: nat, fd: nat, file: Option<File>)
    requires Inv(t, e, s) && fd in t && BackedUp(s.backups, fd)
    ensures var (s', ok) := Perform(s, limit, Open(fd, file)); Inv(t, if ok then Effect(e, Open(fd, file)) else e, s')
  {
    if file.Some? { PlaceKeeps(t, e, s, limit, fd, file.value); }
  }

  lemma HereKeeps(t: Table, e: Table, s: State, limit: nat, fd: nat, pipe: Option<File>, written: bool)
    requires Inv(t, e, s) && fd in t && BackedUp(s.backups, fd)
    ensures var (s', ok) := Perform(s, limit, Here(fd, pipe, written));
      Inv(t, if ok then Effect(e, Here(fd, pipe, written)) else e, s')
  {
    if pipe.Some? { PlaceKeeps(t, e, s, limit, fd, pipe.value); }
  }

  lemma PlaceKeeps(t: Table, e: Table, s: State, limit: nat, fd: nat, file: File)
    requires Inv(t, e, s) && fd in t && BackedUp(s.backups, fd)
    ensures var (t', ok) := Install(s.table, limit, Lowest(s.table), file, fd);
      Inv(t, if ok then e[fd := file] else e, s.(table := t'))
  {
    InstallIsChange(s.table, limit, Lowest(s.table), file, fd);
    ChangeKeeps(t, e, s, fd, file);
  }

  lemma DupPerforms(s: State, limit: nat, fd: nat, source: nat)
    ensures Perform(s, limit, Dup(fd, source)) ==
            (var made := Ensure(s, limit, source);
             if made.None? then (s, false)
             else if source in made.value.table && fd < limit then
               (made.value.(table := made.value.table[fd := made.value.table[source]]), true)
             else (made.value, false))
  {
  }

  lemma DupKeeps(t: Table, e: Table, s: State, limit: nat, fd: nat, source: nat)
    requires Inv(t, e, s) && fd in t && source in t && BackedUp(s.backups, fd)
    ensures var (s', ok) := Perform(s, limit, Dup(fd, source)); Inv(t, if ok then Effect(e, Dup(fd, source)) else e, s')
  {
    DupPerforms(s, limit, fd, source);
    var made := Ensure(s, limit, source);
    if made.Some? {
      var s' := made.value;
      EnsureKeeps(t, e, s, limit, source);
      assert s'.table[source] == e[source];
      ChangeKeeps(t, e, s', fd, e[source]);
    }
  }

  lemma ApplyKeeps(t: Table, e: Table, s: State, limit: nat, r: Redirection)
    requires Inv(t, e, s) && InScope(t, r)
    ensures var (s', ok) := Apply(s, limit, r); Inv(t, if ok then Effect(e, r) else e, s')
  {
    if Ensure(s, limit, r.fd).Some? {
      EnsureKeeps(t, e, s, limit, r.fd);
      PerformKeeps(t, e, Ensure(s, limit, r.fd).value, limit, r);
    }
  }

  /** After any number of redirections the table holds their effects and the copies, nothing else. */
  lemma {:induction false} AllKeep(t: Table, e: Table, s: State, limit: nat, rs: seq<Redirection>) returns (e': Table)
    requires Inv(t, e, s) && AllInScope(t, rs)
    ensures Inv(t, e', ApplyAll(s, limit, rs).0)
    ensures ApplyAll(s, limit, rs).1 ==> e' == Effects(e, rs)
    decreases |rs|
  {
    if rs == [] {
      e' := e;
    } else {
      ApplyKeeps(t, e, s, limit, rs[0]);
      var (s', ok) := Apply(s, limit, rs[0]);
      if ok {
        e' := AllKeep(t, Effect(e, rs[0]), s', limit, rs[1..]);
      } else {
        e' := e;
      }
    }
  }

  // ---------------------------------------------------------------- success

  lemma {:induction false} ReleaseDrops(t: Table, backups: seq<Backup>)
    ensures Release(t, backups) == map n | n in t && !IsCopy(backups, n) :: t[n]
    decreases |backups|
  {
    if backups != [] {
      var b, rest := backups[0], backups[1..];
      var t' := if b.saved.Some? then t - {b.saved.value} else t;
      ReleaseDrops(t', rest);
      forall n: nat ensures IsCopy(backups, n) == (b.saved == Some(n) || IsCopy(rest, n)) {
        if IsCopy(rest, n) {
          var k :| 0 <= k < |rest| && rest[k].saved == Some(n);
          assert backups[k + 1].saved == Some(n);
        }
        if IsCopy(backups, n) && b.saved != Some(n) {
          var k :| 0 <= k < |backups| && backups[k].saved == Some(n);
          assert rest[k - 1].saved == Some(n);
        }
      }
    }
  }

  lemma CopiesAreNew(t: Table, s: State)
    requires Copies(t, s)
    ensures forall n: nat :: IsCopy(s.backups, n) ==> n !in t
  {
  }

  /** Success leaves the effect of the redirections one after the other, and no copy stays open. */
  lemma SuccessIsSequential(t: Table, limit: nat, rs: seq<Redirection>)
    requires AllInScope(t, rs) && ExecRedirections(t, limit, rs).1
    ensures ExecRedirections(t, limit, rs).0 == Effects(t, rs)
  {
    var e := AllKeep(t, t, State(t, []), limit, rs);
    var s := ApplyAll(State(t, []), limit, rs).0;
    ReleaseDrops(s.table, s.backups);
    CopiesAreNew(t, s);
  }

  // ---------------------------------------------------------------- failure

  /** The descriptors whose copy could not be made. */
  function Lost(backups: seq<Backup>): set<nat> {
    set k | 0 <= k < |backups| && backups[k].saved.None? :: backups[k].fd
  }

  /** Rolling back: outside the backups left, the entry table is restored but for `gone`. */
  predicate Rolling(t: Table, s: State, gone: set<nat>) {
    (forall n :: n in s.table && n !in t ==> IsCopy(s.backups, n))
    && (forall n :: n in t && !BackedUp(s.backups, n) && n !in gone ==> n in s.table && s.table[n] == t[n])
    && (forall n :: n in gone ==> n !in s.table && !BackedUp(s.backups, n))
  }

  lemma FewerBackups(backups: seq<Backup>, n: nat)
    requires backups != []
    ensures BackedUp(backups, n) == (backups[0].fd == n || BackedUp(backups[1..], n))
    ensures IsCopy(backups, n) == (backups[0].saved == Some(n) || IsCopy(backups[1..], n))
  {
    assert backups == [backups[0]] + backups[1..];
    var rest := backups[1..];
    if BackedUp(rest, n) {
      var k :| 0 <= k < |rest| && rest[k].fd == n;
      assert backups[k + 1].fd == n;
    }
    if IsCopy(rest, n) {
      var k :| 0 <= k < |rest| && rest[k].saved == Some(n);
      assert backups[k + 1].saved == Some(n);
    }
  }

  lemma RestoreCopies(t: Table, s: State)
    requires Copies(t, s) && s.backups != []
    ensures Copies(t, State(Restore(s.table, s.backups[0]), s.backups[1..]))
  {
    var b := s.backups[0];
    var s' := State(Restore(s.table, b), s.backups[1..]);
    assert Copy(t, s.table, b);
    forall i | 0 <= i < |s'.backups| ensures Copy(t, s'.table, s'.backups[i]) {
      assert Copy(t, s.table, s.backups[i + 1]);
    }
  }

  /** The table after one restore: only the descriptor and its copy change. */
  lemma RestoreEffect(t: Table, now: Table, b: Backup)
    requires Copy(t, now, b)
    ensures var r := Restore(now, b);
      (forall n :: n in r ==> n == b.fd || (n in now && Some(n) != b.saved && r[n] == now[n]))
      && (forall n :: n in now && n != b.fd && Some(n) != b.saved ==> n in r && r[n] == now[n])
      && (if b.saved.None? then b.fd !in r else b.fd in r && r[b.fd] == t[b.fd])
  {
  }

  lemma RestoreRolls(t: Table, s: State, gone: set<nat>)
    requires Copies(t, s) && Rolling(t, s, gone) && s.backups != []
    ensures var b := s.backups[0];
      Rolling(t, State(Restore(s.table, b), s.backups[1..]), if b.saved.None? then gone + {b.fd} else gone)
  {
    var b, rest := s.backups[0], s.backups[1..];
    assert Copy(t, s.table, b);
    RestoreEffect(t, s.table, b);
    forall n: nat ensures BackedUp(s.backups, n) == (b.fd == n || BackedUp(rest, n))
                  ensures IsCopy(s.backups, n) == (b.saved == Some(n) || IsCopy(rest, n))
    {
      FewerBackups(s.backups, n);
    }
    assert !BackedUp(rest, b.fd);
  }

  lemma LostFirst(backups: seq<Backup>)
    requires backups != []
    ensures Lost(backups) == (if backups[0].saved.None? then {backups[0].fd} else {}) + Lost(backups[1..])
  {
    var rest := backups[1..];
    forall n | n in Lost(rest) ensures n in Lost(backups) {
      var k :| 0 <= k < |rest| && rest[k].saved.None? && rest[k].fd == n;
      assert backups[k + 1].fd == n;
    }
    forall n | n in Lost(backups) && !(backups[0].saved.None? && backups[0].fd == n) ensures n in Lost(rest) {
      var k :| 0 <= k < |backups| && backups[k].saved.None? && backups[k].fd == n;
      assert rest[k - 1].fd == n;
    }
  }

  lemma AllRestored(t: Table, s: State, gone: set<nat>)
    requires Rolling(t, s, gone) && s.backups == []
    ensures s.table == t - gone
  {
    assert forall n :: n in t && n !in gone ==> !BackedUp(s.backups, n);
  }

  lemma {:induction false} RollBackRestores(t: Table, s: State, gone: set<nat>)
    requires Copies(t, s) && Rolling(t, s, gone)
    ensures RollBack(s.table, s.backups) == t - (gone + Lost(s.backups))
    decreases |s.backups|
  {
    if s.backups == [] {
      AllRestored(t, s, gone);
      assert gone + Lost([]) == gone;
    } else {
      var b, rest := s.backups[0], s.backups[1..];
      var gone' := if b.saved.None? then gone + {b.fd} else gone;
      RestoreCopies(t, s);
      RestoreRolls(t, s, gone);
      RollBackRestores(t, State(Restore(s.table, b), rest), gone');
      assert gone' + Lost(rest) == gone + Lost(s.backups) by { LostFirst(s.backups); }
    }
  }

  /** The backups at the point of failure. */
  function Reached(t: Table, limit: nat, rs: seq<Redirection>): seq<Backup> {
    ApplyAll(State(t, []), limit, rs).0.backups
  }

  /** Failure restores the entry table, but for the descriptors of which no copy could be made: those are closed. */
  lemma FailureRestoresButLost(t: Table, limit: nat, rs: seq<Redirection>)
    requires AllInScope(t, rs) && !ExecRedirections(t, limit, rs).1
    ensures ExecRedirections(t, limit, rs).0 == t - Lost(Reached(t, limit, rs))
    ensures Lost(Reached(t, limit, rs)) <= t.Keys
  {
    var e := AllKeep(t, t, State(t, []), limit, rs);
    var s := ApplyAll(State(t, []), limit, rs).0;
    RollBackRestores(t, s, {});
    assert {} + Lost(s.backups) == Lost(s.backups);
    forall n | n in Lost(s.backups) ensures n in t {
      var k :| 0 <= k < |s.backups| && s.backups[k].saved.None? && s.backups[k].fd == n;
      assert Copy(t, s.table, s.backups[k]);
    }
  }

  // ---------------------------------------------------------------- when is nothing lost?

  function UpTo(n: nat): (s: set<nat>)
    ensures |s| == n && forall k: nat :: k in s <==> k < n
  {
    if n == 0 then {} else UpTo(n - 1) + {n - 1}
  }

  lemma {:induction false} SubsetSize<T>(a: set<T>, b: set<T>)
    requires a <= b
    ensures |a| <= |b| && (|a| == |b| ==> a == b)
    decreases |a|
  {
    if a != {} {
      var x :| x in a;
      SubsetSize(a - {x}, b - {x});
      assert a == (a - {x}) + {x} && b == (b - {x}) + {x};
    }
  }

  /** There is a free descriptor below the limit exactly when the table is smaller. */
  lemma RoomMeansSmaller(t: Table, limit: nat)
    requires Below(t, limit)
    ensures |t| <= limit && (Lowest(t) < limit <==> |t| < limit)
  {
    SubsetSize(t.Keys, UpTo(limit));
    if Lowest(t) >= limit {
      assert t.Keys == UpTo(limit);
    } else {
      assert Lowest(t) in UpTo(limit) && Lowest(t) !in t.Keys;
    }
  }

  /** Copies are made as long as descriptors are free, and nothing else takes one for good. */
  predicate Counted(t: Table, limit: nat, s: State) {
    Below(t, limit) && Below(s.table, limit) && |t| <= limit
    && |s.table| == (if |t| + |s.backups| <= limit then |t| + |s.backups| else limit)
    && forall k :: 0 <= k < |s.backups| ==> (s.backups[k].saved.Some? <==> k < limit - |t|)
  }

  lemma EnsureCounts(t: Table, s: State, limit: nat, fd: nat)
    requires Counted(t, limit, s) && fd in s.table && Ensure(s, limit, fd).Some?
    ensures Counted(t, limit, Ensure(s, limit, fd).value)
  {
    RoomMeansSmaller(s.table, limit);
    var n := Lowest(s.table);
    assert (s.table[n := s.table[fd]]).Keys == s.table.Keys + {n};
  }

  lemma ChangeCounts(t: Table, s: State, limit: nat, fd: nat, file: File)
    requires Counted(t, limit, s) && fd in s.table
    ensures Counted(t, limit, s.(table := s.table[fd := file]))
  {
    assert (s.table[fd := file]).Keys == s.table.Keys;
  }

  lemma PlaceCounts(t: Table, s: State, limit: nat, fd: nat, file: File)
    requires Counted(t, limit, s) && fd in s.table
    ensures Counted(t, limit, s.(table := Install(s.table, limit, Lowest(s.table), file, fd).0))
  {
    InstallIsChange(s.table, limit, Lowest(s.table), file, fd);
    ChangeCounts(t, s, limit, fd, file);
  }

  lemma EnsureGrows(s: State, limit: nat, fd: nat)
    ensures Ensure(s, limit, fd).Some? ==> s.table.Keys <= Ensure(s, limit, fd).value.table.Keys
  {
  }

  lemma DupCounts(t: Table, s: State, limit: nat, fd: nat, source: nat)
    requires fd in s.table && source in s.table && Counted(t, limit, s)
    ensures Counted(t, limit, Perform(s, limit, Dup(fd, source)).0)
  {
    var made := Ensure(s, limit, source);
    if made.Some? {
      EnsureCounts(t, s, limit, source);
      EnsureGrows(s, limit, source);
      ChangeCounts(t, made.value, limit, fd, made.value.table[source]);
    }
  }

  lemma PerformCounts(t: Table, s: State, limit: nat, r: Redirection)
    requires !r.Close? && Named(r) <= s.table.Keys && Counted(t, limit, s)
    ensures Counted(t, limit, Perform(s, limit, r).0)
  {
    match r
    case Open(fd, file) => if file.Some? { PlaceCounts(t, s, limit, fd, file.value); }
    case Here(fd, pipe, written) => if pipe.Some? { PlaceCounts(t, s, limit, fd, pipe.value); }
    case Dup(fd, source) => DupCounts(t, s, limit, fd, source);
    case Unsupported(_) =>
  }

  lemma ApplyCounts(t: Table, e: Table, s: State, limit: nat, r: Redirection)
    requires Inv(t, e, s) && InScope(t, r) && Counted(t, limit, s)
    ensures Counted(t, limit, Apply(s, limit, r).0)
  {
    if Ensure(s, limit, r.fd).Some? {
      EnsureCounts(t, s, limit, r.fd);
      EnsureGrows(s, limit, r.fd);
      assert Named(r) <= s.table.Keys;
      PerformCounts(t, Ensure(s, limit, r.fd).value, limit, r);
    }
  }

  lemma {:induction false} AllCount(t: Table, e: Table, s: State, limit: nat, rs: seq<Redirection>)
    requires Inv(t, e, s) && AllInScope(t, rs) && Counted(t, limit, s)
    ensures Counted(t, limit, ApplyAll(s, limit, rs).0)
    decreases |rs|
  {
    if rs != [] {
      var r := rs[0];
      ApplyCounts(t, e, s, limit, r);
      ApplyKeeps(t, e, s, limit, r);
      var (s', ok) := Apply(s, limit, r);
      if ok { AllCount(t, Effect(e, r), s', limit, rs[1..]); }
    }
  }

  /** A failure restores the table exactly when as many descriptors were free as backups were made. */
  lemma FailureRestoresByCount(t: Table, limit: nat, rs: seq<Redirection>)
    requires AllInScope(t, rs) && Below(t, limit) && !ExecRedirections(t, limit, rs).1
    ensures ExecRedirections(t, limit, rs).0 == t <==> |Reached(t, limit, rs)| <= limit - |t|
  {
    RoomMeansSmaller(t, limit);
    AllCount(t, t, State(t, []), limit, rs);
    FailureRestoresButLost(t, limit, rs);
    var backups := Reached(t, limit, rs);
    var free := limit - |t|;
    if |backups| > free {
      assert backups[free].fd in Lost(backups);
    } else {
      assert Lost(backups) == {};
    }
  }

  // ---------------------------------------------------------------- a bound known before the call

  /** The descriptors that the redirections name. */
  function AllNamed(rs: seq<Redirection>): set<nat> {
    if rs == [] then {} else Named(rs[0]) + AllNamed(rs[1..])
  }

  function BackedUpSet(backups: seq<Backup>): set<nat> { set k | 0 <= k < |backups| :: backups[k].fd }

  lemma {:induction false} DistinctCount(backups: seq<Backup>)
    requires forall i, j :: 0 <= i < j < |backups| ==> backups[i].fd != backups[j].fd
    ensures |BackedUpSet(backups)| == |backups|
    decreases |backups|
  {
    if backups != [] {
      var n := |backups| - 1;
      var front := backups[..n];
      DistinctCount(front);
      assert BackedUpSet(backups) == BackedUpSet(front) + {backups[n].fd};
    }
  }

  predicate Distinct(backups: seq<Backup>) {
    forall i, j :: 0 <= i < j < |backups| ==> backups[i].fd != backups[j].fd
  }

  lemma MoreBackedUp(backups: seq<Backup>, b: Backup)
    ensures BackedUpSet(backups + [b]) == BackedUpSet(backups) + {b.fd}
  {
    var all := backups + [b];
    assert all[|backups|] == b;
    forall n | n in BackedUpSet(backups) ensures n in BackedUpSet(all) {
      var k :| 0 <= k < |backups| && backups[k].fd == n;
      assert all[k].fd == n;
    }
  }

  /** The backups are of exactly these descriptors, one slot each. */
  predicate Slots(s: State, names: set<nat>) {
    Distinct(s.backups) && BackedUpSet(s.backups) == names && |s.backups| == |names| <= MAX_REDIRECTIONS
  }

  /** A descriptor gets its slot unless all are taken by others. */
  lemma EnsureTakesSlot(s: State, limit: nat, fd: nat, names: set<nat>)
    requires Slots(s, names)
    ensures var made := Ensure(s, limit, fd);
      if |names + {fd}| <= MAX_REDIRECTIONS then made.Some? && Slots(made.value, names + {fd})
      else made.None? && |s.backups| == MAX_REDIRECTIONS
  {
    if BackedUp(s.backups, fd) {
      assert fd in names && names + {fd} == names;
    } else {
      assert fd !in names;
      MoreBackedUp(s.backups, Backup(fd, DupFd(s.table, limit, fd)));
    }
  }

  /** The slots taken after a redirection: those of all descriptors named, up to the number there are. */
  lemma ApplyTakesSlots(s: State, limit: nat, r: Redirection, names: set<nat>)
    requires Slots(s, names)
    ensures var (s', ok) := Apply(s, limit, r); var all := names + Named(r);
      if |all| <= MAX_REDIRECTIONS then Slots(s', all) else !ok && |s'.backups| == MAX_REDIRECTIONS
  {
    var one, all := names + {r.fd}, names + Named(r);
    EnsureTakesSlot(s, limit, r.fd, names);
    if r.Dup? {
      assert one + {r.source} == all;
      SubsetSize(one, all);
      if |one| <= MAX_REDIRECTIONS { DupTakesSlot(Ensure(s, limit, r.fd).value, limit, r.fd, r.source, one); }
    } else {
      assert one == all;
    }
  }

  lemma DupTakesSlot(s: State, limit: nat, fd: nat, source: nat, names: set<nat>)
    requires Slots(s, names)
    ensures var (s', ok) := Perform(s, limit, Dup(fd, source)); var all := names + {source};
      if |all| <= MAX_REDIRECTIONS then Slots(s', all) else !ok && |s'.backups| == MAX_REDIRECTIONS
  {
    EnsureTakesSlot(s, limit, source, names);
  }

  /** The step at which the redirections fail, or their number. */
  function FailingStep(s: State, limit: nat, rs: seq<Redirection>): (k: nat)
    ensures k <= |rs| && (k < |rs| <==> !ApplyAll(s, limit, rs).1)
    decreases |rs|
  {
    if rs == [] then 0
    else
      var (s', ok) := Apply(s, limit, rs[0]);
      if ok then 1 + FailingStep(s', limit, rs[1..]) else 0
  }

  function Capped(n: nat): nat { if n < MAX_REDIRECTIONS then n else MAX_REDIRECTIONS }

  lemma NamedFirst(names: set<nat>, rs: seq<Redirection>, k: nat)
    requires k < |rs|
    ensures names + AllNamed(rs[..k + 1]) == names + Named(rs[0]) + AllNamed(rs[1..][..k])
    ensures k == 0 ==> names + AllNamed(rs[..k + 1]) == names + Named(rs[0])
  {
    assert rs[..k + 1][0] == rs[0] && rs[..k + 1][1..] == rs[1..][..k];
    assert k == 0 ==> AllNamed(rs[1..][..0]) == {};
  }

  lemma {:induction false} BackupsAtFailure(s: State, limit: nat, rs: seq<Redirection>, names: set<nat>, k: nat)
    requires Slots(s, names) && k == FailingStep(s, limit, rs) < |rs|
    ensures |ApplyAll(s, limit, rs).0.backups| == Capped(|names + AllNamed(rs[..k + 1])|)
    decreases |rs|
  {
    ApplyTakesSlots(s, limit, rs[0], names);
    NamedFirst(names, rs, k);
    var (s', ok) := Apply(s, limit, rs[0]);
    if ok {
      var k' := k - 1;
      BackupsAtFailure(s', limit, rs[1..], names + Named(rs[0]), k');
      assert rs[1..][..k' + 1] == rs[1..][..k];
    }
  }

  /**
   * A failure restores the table exactly if and only if there were at least as many free
   * descriptors on entry as descriptors named up to the failing step, of which only as many
   * count as there are slots for backups.
   */
  lemma FailureRestoresIff(t: Table, limit: nat, rs: seq<Redirection>)
    requires AllInScope(t, rs) && Below(t, limit) && !ExecRedirections(t, limit, rs).1
    ensures ExecRedirections(t, limit, rs).0 == t <==>
            Capped(|AllNamed(rs[..FailingStep(State(t, []), limit, rs) + 1])|) <= limit - |t|
  {
    FailureRestoresByCount(t, limit, rs);
    ReachedAtFailure(t, limit, rs);
  }

  lemma ReachedAtFailure(t: Table, limit: nat, rs: seq<Redirection>)
    requires !ExecRedirections(t, limit, rs).1
    ensures |Reached(t, limit, rs)| == Capped(|AllNamed(rs[..FailingStep(State(t, []), limit, rs) + 1])|)
  {
    var k := FailingStep(State(t, []), limit, rs);
    BackupsAtFailure(State(t, []), limit, rs, {}, k);
    var names := AllNamed(rs[..k + 1]);
    assert {} + names == names;
  }

  // ---------------------------------------------------------------- outside the scope

  predicate IsTransaction(t: Table, limit: nat, rs: seq<Redirection>) {
    var (t', ok) := ExecRedirections(t, limit, rs);
    t' == if ok then Effects(t, rs) else t
  }

  lemma OneRedirection(t: Table, limit: nat, r: Redirection)
    ensures ExecRedirections(t, limit, [r]) ==
            (var (s, ok) := Apply(State(t, []), limit, r);
             (if ok then Release(s.table, s.backups) else RollBack(s.table, s.backups), ok))
    ensures Reached(t, limit, [r]) == Apply(State(t, []), limit, r).0.backups
    ensures Effects(t, [r]) == Effect(t, r)
  {
    assert [r][1..] == [];
    var (s, ok) := Apply(State(t, []), limit, r);
    assert ApplyAll(s, limit, []) == (s, true);
    assert ApplyAll(State(t, []), limit, [r]) == (s, ok);
  }

  /** Opening at a closed descriptor. */
  lemma OpenAtClosed(t: Table, limit: nat, fd: nat, file: Option<File>)
    requires Below(t, limit) && fd !in t
    ensures IsTransaction(t, limit, [Open(fd, file)]) <==> !(fd == Lowest(t) && fd < limit && file.Some?)
  {
    OneRedirection(t, limit, Open(fd, file));
    var b := Backup(fd, None);
    var s := State(t, [] + [b]);
    assert [b][1..] == [];
    assert Ensure(State(t, []), limit, fd) == Some(s);
    assert t - {fd} == t;
    if file.Some? && Lowest(t) < limit {
      var n, f := Lowest(t), file.value;
      assert t[n := f] - {n} == t;
      assert n != fd ==> t[n := f][fd := f] - {n} == t[fd := f];
      assert n == fd ==> t[n := f][fd := f] - {n} == t && fd !in t;
    }
  }

  lemma OpenAtOpen(t: Table, limit: nat, fd: nat, file: Option<File>)
    requires Below(t, limit) && fd in t
    ensures IsTransaction(t, limit, [Open(fd, file)]) <==> |t| < limit
  {
    var rs := [Open(fd, file)];
    OneRedirection(t, limit, rs[0]);
    RoomMeansSmaller(t, limit);
    assert InScope(t, rs[0]);
    if ExecRedirections(t, limit, rs).1 {
      SuccessIsSequential(t, limit, rs);
    } else {
      FailureRestoresByCount(t, limit, rs);
    }
  }

  /**
   * Opening a file at one descriptor, whatever the table: it is a transaction unless the
   * descriptor is open and the table full, or the descriptor is the very one that opening the
   * file hands out, which is then closed at once.
   */
  lemma OpenIsTransactionIff(t: Table, limit: nat, fd: nat, file: Option<File>)
    requires Below(t, limit)
    ensures IsTransaction(t, limit, [Open(fd, file)]) <==>
            !(fd in t && |t| == limit) && !(fd == Lowest(t) && fd < limit && file.Some?)
  {
    RoomMeansSmaller(t, limit);
    if fd in t { OpenAtOpen(t, limit, fd, file); } else { OpenAtClosed(t, limit, fd, file); }
  }

  lemma LowestIs(t: Table, n: nat)
    requires n !in t && forall k: nat :: k < n ==> k in t
    ensures Lowest(t) == n
  {
  }

  /** `exec 3>f` with 0, 1 and 2 open: the call succeeds and 3 stays closed. */
  lemma LowestDescriptorStaysClosed(limit: nat, a: File, b: File, c: File, f: File)
    requires limit > 3
    ensures var t: Table := map[0 := a, 1 := b, 2 := c];
      ExecRedirections(t, limit, [Open(3, Some(f))]) == (t, true) && !IsTransaction(t, limit, [Open(3, Some(f))])
  {
    var t: Table := map[0 := a, 1 := b, 2 := c];
    LowestIs(t, 3);
    OpenIsTransactionIff(t, limit, 3, Some(f));
    OneRedirection(t, limit, Open(3, Some(f)));
    var backup := Backup(3, None);
    assert [] + [backup] == [backup] && [backup][1..] == [];
    assert Ensure(State(t, []), limit, 3) == Some(State(t, [backup]));
    assert t[3 := f][3 := f] - {3} == t;
  }

  /** With every descriptor below the limit open, opening a file at one of them fails and closes it. */
  lemma FullTableLosesDescriptor(t: Table, limit: nat, fd: nat, file: Option<File>)
    requires Below(t, limit) && |t| == limit && fd in t
    ensures ExecRedirections(t, limit, [Open(fd, file)]) == (t - {fd}, false)
  {
    RoomMeansSmaller(t, limit);
    OneRedirection(t, limit, Open(fd, file));
    var backup := Backup(fd, None);
    assert [] + [backup] == [backup] && [backup][1..] == [];
    assert Ensure(State(t, []), limit, fd) == Some(State(t, [backup]));
  }

  /** The copy of the second descriptor takes the place of the closed one unless two lower ones are free. */
  lemma NextCopy(t: Table, c: nat)
    requires c in t
    ensures Lowest(t - {c}) == if Lowest(t) < c then Lowest(t) else c
  {
    LowestIs(t - {c}, if Lowest(t) < c then Lowest(t) else c);
  }

  lemma TwoRedirections(t: Table, limit: nat, r1: Redirection, r2: Redirection)
    requires Apply(State(t, []), limit, r1).1
    ensures ApplyAll(State(t, []), limit, [r1, r2]) == Apply(Apply(State(t, []), limit, r1).0, limit, r2)
  {
    var s, rs := Apply(State(t, []), limit, r1).0, [r1, r2];
    assert rs[1..] == [r2] && [r2][1..] == [];
    var (s', ok) := Apply(s, limit, r2);
    assert ApplyAll(s', limit, []) == (s', true);
    assert ApplyAll(s, limit, [r2]) == (s', ok);
  }

  lemma RollBackTwo(t: Table, a: Backup, b: Backup)
    ensures RollBack(t, [a, b]) == Restore(Restore(t, a), b)
  {
    assert [a, b][1..] == [b] && [b][1..] == [];
    var t' := Restore(t, a);
    assert RollBack(t', [b]) == RollBack(Restore(t', b), []);
  }

  /** The state after closing `c` and backing up `fd`. */
  lemma CloseThenBackUp(t: Table, limit: nat, c: nat, fd: nat, n: nat, m: nat)
    requires Below(t, limit) && c in t && fd in t && c != fd && |t| < limit
    requires n == Lowest(t) && m == Lowest(t[n := t[c]] - {c})
    ensures Apply(State(t, []), limit, Close(c)).1
    ensures var s := Apply(Apply(State(t, []), limit, Close(c)).0, limit, Open(fd, None));
            s == (State((t[n := t[c]] - {c})[m := t[fd]], [Backup(c, Some(n)), Backup(fd, Some(m))]), false)
  {
    RoomMeansSmaller(t, limit);
    var b := Backup(c, Some(n));
    assert [] + [b] == [b];
    assert Ensure(State(t, []), limit, c) == Some(State(t[n := t[c]], [b]));
    var t1 := t[n := t[c]] - {c};
    assert t1.Keys == (t.Keys + {n}) - {c};
    assert |t1.Keys| == |t|;
    RoomMeansSmaller(t1, limit);
    var b' := Backup(fd, Some(m));
    assert [b] + [b'] == [b, b'];
    assert !BackedUp([b], fd);
    assert Ensure(State(t1, [b]), limit, fd) == Some(State(t1[m := t[fd]], [b, b']));
  }

  /** The same in a full table: the copy of `fd` takes the only free descriptor, which the rollback closes. */
  lemma CloseInFullTable(t: Table, limit: nat, c: nat, fd: nat)
    requires Below(t, limit) && c in t && fd in t && c != fd && |t| == limit
    ensures ExecRedirections(t, limit, [Close(c), Open(fd, None)]) == (t - {c}, false)
  {
    RoomMeansSmaller(t, limit);
    var b, b', t1 := Backup(c, None), Backup(fd, Some(c)), t - {c};
    NextCopy(t, c);
    assert [] + [b] == [b] && [b] + [b'] == [b, b'];
    assert Ensure(State(t, []), limit, c) == Some(State(t, [b]));
    assert Apply(State(t, []), limit, Close(c)) == (State(t1, [b]), true);
    assert !BackedUp([b], fd);
    assert Ensure(State(t1, [b]), limit, fd) == Some(State(t1[c := t[fd]], [b, b']));
    TwoRedirections(t, limit, Close(c), Open(fd, None));
    RollBackTwo(t1[c := t[fd]], b, b');
    assert Restore(t1[c := t[fd]], b) == t1;
  }

  /**
   * A close redirection frees its descriptor for the next copy. Closing `c` and then failing to
   * open a file at `fd` restores the table exactly when two descriptors below `c` are free;
   * otherwise `c` is left closed and `fd` with the file of `c`, or, in a full table, with its own.
   */
  lemma CloseThenFailure(t: Table, limit: nat, c: nat, fd: nat)
    requires Below(t, limit) && c in t && fd in t && c != fd
    ensures ExecRedirections(t, limit, [Close(c), Open(fd, None)]) ==
            (if |t| == limit then t - {c}
             else if Lowest(t[Lowest(t) := t[c]]) < c then t
             else t[fd := t[c]] - {c}, false)
  {
    RoomMeansSmaller(t, limit);
    if |t| == limit {
      CloseInFullTable(t, limit, c, fd);
      return;
    }
    var n := Lowest(t);
    var t0 := t[n := t[c]];
    var t1 := t0 - {c};
    var m := Lowest(t1);
    NextCopy(t0, c);
    CloseThenBackUp(t, limit, c, fd, n, m);
    TwoRedirections(t, limit, Close(c), Open(fd, None));
    RollBackTwo(t1[m := t[fd]], Backup(c, Some(n)), Backup(fd, Some(m)));
    var t2 := t1[m := t[fd]];
    var t3 := Restore(t2, Backup(c, Some(n)));
    if m == c {
      assert t3 == t;
    } else {
      assert t3 == t[m := t[fd]];
      assert t3[fd := t[fd]] - {m} == t;
    }
  }
}
