/**
 * Lists of redirections of every kind. They are a transaction as long as the descriptors that
 * copies and opened files are handed out stay below every named one that is or gets closed.
 */
module RedirectTransactions {
  import opened Text
  import opened Redirect
  import opened RedirectLaws

  /** The descriptors below `c` that are not in use. */
  function FreeBelow(t: Table, c: nat): set<nat> { set n | 0 <= n < c && n !in t }

  /** The descriptors that a list names, and those that it closes. */
  datatype Names = Names(all: set<nat>, shut: set<nat>)

  function NamesOf(rs: seq<Redirection>): Names {
    Names(AllNamed(rs), set k | 0 <= k < |rs| && rs[k].Close? :: rs[k].fd)
  }

  /** Every named descriptor that is or gets closed has more free ones below it than there are named ones. */
  predicate ClosedOnesAreHigh(t: Table, names: Names) {
    forall c :: c in names.all && (c !in t || c in names.shut) ==> |FreeBelow(t, c)| > |names.all|
  }

  predicate Covers(names: Names, r: Redirection) {
    Named(r) <= names.all && (r.Close? ==> r.fd in names.shut)
  }

  predicate Within(names: Names, rs: seq<Redirection>) {
    forall k :: 0 <= k < |rs| ==> Covers(names, rs[k])
  }

  /** Room for one copy of each named descriptor, and the closed ones high enough. */
  predicate Suited(t: Table, names: Names, limit: nat) {
    Below(t, limit) && |t| + |names.all| <= limit && ClosedOnesAreHigh(t, names)
  }

  // ---------------------------------------------------------------- the invariant

  /** A copy for exactly the descriptors open on entry, at a descriptor free on entry that is not named. */
  predicate Kept(t: Table, names: Names, now: Table, b: Backup) {
    b.fd in names.all && (b.saved.Some? <==> b.fd in t)
    && (b.saved.Some? ==>
      b.saved.value !in t && b.saved.value !in names.all && b.saved.value in now && now[b.saved.value] == t[b.fd])
  }

  predicate AllKept(t: Table, names: Names, s: State) {
    (forall i, j :: 0 <= i < j < |s.backups| ==> s.backups[i].fd != s.backups[j].fd)
    && (forall i, j :: 0 <= i < j < |s.backups| && s.backups[i].saved.Some? ==>
      s.backups[i].saved != s.backups[j].saved)
    && (forall i :: 0 <= i < |s.backups| ==> Kept(t, names, s.table, s.backups[i]))
  }

  /** The table is `e` and the copies; `e` is the entry table but at backed-up descriptors. */
  predicate Holds(t: Table, names: Names, e: Table, s: State) {
    (forall n :: n in e ==> n in s.table && s.table[n] == e[n])
    && (forall n :: n in s.table && n !in e ==> IsCopy(s.backups, n))
    && (forall n :: n in e && !BackedUp(s.backups, n) ==> n in t && e[n] == t[n])
    && (forall n :: n in t && n !in e ==> n in names.shut && BackedUp(s.backups, n))
  }

  /** Each backup takes at most one descriptor more. */
  predicate Counts(t: Table, names: Names, limit: nat, s: State) {
    Below(s.table, limit) && BackedUpSet(s.backups) <= names.all
    && |s.table.Keys + BackedUpSet(s.backups)| <= |t| + |s.backups|
  }

  predicate Good(t: Table, names: Names, limit: nat, e: Table, s: State) {
    AllKept(t, names, s) && Holds(t, names, e, s) && Counts(t, names, limit, s)
  }

  // ---------------------------------------------------------------- what is handed out

  lemma InBackedUpSet(backups: seq<Backup>, n: nat)
    ensures n in BackedUpSet(backups) <==> BackedUp(backups, n)
  {
  }

  /** A copy is at a descriptor that was free on entry and is not named. */
  lemma CopyIsUnnamed(t: Table, names: Names, s: State, n: nat)
    requires AllKept(t, names, s)
    ensures IsCopy(s.backups, n) ==> n !in names.all && n !in t
    ensures BackedUp(s.backups, n) ==> n in names.all
  {
  }

  lemma BackupsAreFew(t: Table, names: Names, s: State)
    requires AllKept(t, names, s) && BackedUpSet(s.backups) <= names.all
    ensures |s.backups| == |BackedUpSet(s.backups)| <= |names.all|
  {
    DistinctCount(s.backups);
    SubsetSize(BackedUpSet(s.backups), names.all);
  }

  /** If every descriptor below `n` is in use, the free ones below it on entry have all been taken. */
  lemma TakenBelow(t: Table, now: Table, done: set<nat>, n: nat)
    requires t.Keys <= now.Keys + done && forall k :: 0 <= k < n ==> k in now
    ensures |t| + |FreeBelow(t, n)| <= |now.Keys + done|
  {
    SubsetSize(t.Keys + FreeBelow(t, n), now.Keys + done);
  }

  lemma EntryIsThere(t: Table, names: Names, e: Table, s: State)
    requires Holds(t, names, e, s)
    ensures t.Keys <= s.table.Keys + BackedUpSet(s.backups)
  {
    forall n | n in t ensures n in s.table.Keys + BackedUpSet(s.backups) { InBackedUpSet(s.backups, n); }
  }

  /** The lowest free descriptor is never a named one. */
  lemma LowestIsUnnamed(t: Table, names: Names, limit: nat, e: Table, s: State)
    requires Good(t, names, limit, e, s) && Suited(t, names, limit)
    ensures Lowest(s.table) !in names.all
  {
    var n := Lowest(s.table);
    BackupsAreFew(t, names, s);
    EntryIsThere(t, names, e, s);
    TakenBelow(t, s.table, BackedUpSet(s.backups), n);
    assert n in t ==> n !in e;
  }

  /** There is always room for the copy of a descriptor not yet backed up. */
  lemma RoomForCopy(t: Table, names: Names, limit: nat, e: Table, s: State, fd: nat)
    requires Good(t, names, limit, e, s) && Suited(t, names, limit) && fd in names.all && !BackedUp(s.backups, fd)
    ensures Lowest(s.table) < limit && |s.backups| < |names.all|
  {
    var done := BackedUpSet(s.backups);
    InBackedUpSet(s.backups, fd);
    DistinctCount(s.backups);
    SubsetSize(done + {fd}, names.all);
    SubsetSize(s.table.Keys, s.table.Keys + done);
    RoomMeansSmaller(s.table, limit);
  }

  // ---------------------------------------------------------------- a new backup

  /** A descriptor not backed up yet is open exactly when it was on entry. */
  lemma NotYetTouched(t: Table, names: Names, limit: nat, e: Table, s: State, fd: nat)
    requires Good(t, names, limit, e, s) && fd in names.all && !BackedUp(s.backups, fd)
    ensures fd in s.table <==> fd in t
    ensures fd in t ==> s.table[fd] == t[fd]
  {
    CopyIsUnnamed(t, names, s, fd);
  }

  lemma NewIsKept(t: Table, names: Names, limit: nat, e: Table, s: State, fd: nat, s': State)
    requires Good(t, names, limit, e, s) && Suited(t, names, limit) && fd in names.all && !BackedUp(s.backups, fd)
    requires Ensure(s, limit, fd) == Some(s')
    ensures AllKept(t, names, s')
  {
    NotYetTouched(t, names, limit, e, s, fd);
    RoomForCopy(t, names, limit, e, s, fd);
    LowestIsUnnamed(t, names, limit, e, s);
    var b := Backup(fd, DupFd(s.table, limit, fd));
    assert s' == State(s'.table, s.backups + [b]);
    assert Kept(t, names, s'.table, b);
    forall i | 0 <= i < |s.backups|
      ensures Kept(t, names, s'.table, s.backups[i]) && (s.backups[i].saved.Some? ==> s.backups[i].saved != b.saved)
    {
      if fd in s.table { KeptStays(t, names, s.table, s.backups[i], Lowest(s.table), s.table[fd]); }
    }
    AppendKept(t, names, s, s'.table, b);
  }

  lemma AppendKept(t: Table, names: Names, s: State, now: Table, b: Backup)
    requires AllKept(t, names, s) && Kept(t, names, now, b) && !BackedUp(s.backups, b.fd)
    requires forall i :: 0 <= i < |s.backups| ==> Kept(t, names, now, s.backups[i])
    requires forall i :: 0 <= i < |s.backups| && s.backups[i].saved.Some? ==> s.backups[i].saved != b.saved
    ensures AllKept(t, names, State(now, s.backups + [b]))
  {
  }

  lemma KeptStays(t: Table, names: Names, now: Table, b: Backup, n: nat, file: File)
    requires Kept(t, names, now, b) && n !in now
    ensures Kept(t, names, now[n := file], b) && b.saved != Some(n)
  {
  }

  lemma NewHolds(t: Table, names: Names, limit: nat, e: Table, s: State, fd: nat, s': State)
    requires Good(t, names, limit, e, s) && !BackedUp(s.backups, fd) && Ensure(s, limit, fd) == Some(s')
    ensures Holds(t, names, e, s')
  {
    var b := Backup(fd, DupFd(s.table, limit, fd));
    assert s'.backups == s.backups + [b];
    forall n: nat
      ensures n in s'.table && n !in e ==> IsCopy(s'.backups, n)
      ensures n in e && !BackedUp(s'.backups, n) ==> n in t && e[n] == t[n]
      ensures n in t && n !in e ==> BackedUp(s'.backups, n)
    {
      MoreBackups(s.backups, b, n);
    }
  }

  lemma OneMore(table: set<nat>, table': set<nat>, done: set<nat>, fd: nat, extra: nat)
    requires table' <= table + {extra} && (fd == extra || fd in table)
    ensures |table' + (done + {fd})| <= |table + done| + 1
  {
    SubsetSize(table' + (done + {fd}), (table + done) + {extra});
  }

  lemma NewCounts(t: Table, names: Names, limit: nat, s: State, fd: nat, s': State)
    requires Counts(t, names, limit, s) && fd in names.all && !BackedUp(s.backups, fd)
    requires Ensure(s, limit, fd) == Some(s')
    ensures Counts(t, names, limit, s')
  {
    MoreBackedUp(s.backups, Backup(fd, DupFd(s.table, limit, fd)));
    OneMore(s.table.Keys, s'.table.Keys, BackedUpSet(s.backups), fd, if fd in s.table then Lowest(s.table) else fd);
  }

  lemma EnsureKeepsGood(t: Table, names: Names, limit: nat, e: Table, s: State, fd: nat)
    requires Good(t, names, limit, e, s) && Suited(t, names, limit) && fd in names.all && Ensure(s, limit, fd).Some?
    ensures Good(t, names, limit, e, Ensure(s, limit, fd).value) && BackedUp(Ensure(s, limit, fd).value.backups, fd)
    ensures forall n: nat :: BackedUp(s.backups, n) ==> BackedUp(Ensure(s, limit, fd).value.backups, n)
  {
    if !BackedUp(s.backups, fd) {
      var s' := Ensure(s, limit, fd).value;
      NewIsKept(t, names, limit, e, s, fd, s');
      NewHolds(t, names, limit, e, s, fd, s');
      NewCounts(t, names, limit, s, fd, s');
      forall n: nat | BackedUp(s.backups, n) || n == fd ensures BackedUp(s'.backups, n) {
        MoreBackups(s.backups, Backup(fd, DupFd(s.table, limit, fd)), n);
      }
    }
  }

  // ---------------------------------------------------------------- a change

  lemma ChangeIsKept(t: Table, names: Names, s: State, fd: nat, file: File)
    requires AllKept(t, names, s) && fd in names.all
    ensures AllKept(t, names, s.(table := s.table[fd := file]))
  {
    var s' := s.(table := s.table[fd := file]);
    forall i | 0 <= i < |s.backups| ensures Kept(t, names, s'.table, s'.backups[i]) {
      assert Kept(t, names, s.table, s.backups[i]);
    }
  }

  lemma ChangeHolds(t: Table, names: Names, e: Table, s: State, fd: nat, file: File)
    requires Holds(t, names, e, s) && BackedUp(s.backups, fd)
    ensures Holds(t, names, e[fd := file], s.(table := s.table[fd := file]))
  {
  }

  lemma ChangeCountsOn(t: Table, names: Names, limit: nat, s: State, fd: nat, file: File)
    requires Counts(t, names, limit, s) && BackedUp(s.backups, fd) && fd < limit
    ensures Counts(t, names, limit, s.(table := s.table[fd := file]))
  {
    InBackedUpSet(s.backups, fd);
    assert (s.table[fd := file]).Keys + BackedUpSet(s.backups) == s.table.Keys + BackedUpSet(s.backups);
  }

  lemma ChangeKeepsGood(t: Table, names: Names, limit: nat, e: Table, s: State, fd: nat, file: File)
    requires Good(t, names, limit, e, s) && fd in names.all && BackedUp(s.backups, fd) && fd < limit
    ensures Good(t, names, limit, e[fd := file], s.(table := s.table[fd := file]))
  {
    ChangeIsKept(t, names, s, fd, file);
    ChangeHolds(t, names, e, s, fd, file);
    ChangeCountsOn(t, names, limit, s, fd, file);
  }

  lemma CloseKeepsGood(t: Table, names: Names, limit: nat, e: Table, s: State, fd: nat)
    requires Good(t, names, limit, e, s) && fd in names.shut && fd in names.all && BackedUp(s.backups, fd)
    ensures Good(t, names, limit, e - {fd}, s.(table := s.table - {fd}))
  {
    CloseIsKept(t, names, s, fd);
    CloseHolds(t, names, e, s, fd);
    CloseCounts(t, names, limit, s, fd);
  }

  lemma CloseHolds(t: Table, names: Names, e: Table, s: State, fd: nat)
    requires Holds(t, names, e, s) && fd in names.shut && BackedUp(s.backups, fd)
    ensures Holds(t, names, e - {fd}, s.(table := s.table - {fd}))
  {
  }

  lemma CloseCounts(t: Table, names: Names, limit: nat, s: State, fd: nat)
    requires Counts(t, names, limit, s) && BackedUp(s.backups, fd)
    ensures Counts(t, names, limit, s.(table := s.table - {fd}))
  {
    InBackedUpSet(s.backups, fd);
    assert (s.table - {fd}).Keys + BackedUpSet(s.backups) == s.table.Keys + BackedUpSet(s.backups);
  }

  lemma CloseIsKept(t: Table, names: Names, s: State, fd: nat)
    requires AllKept(t, names, s) && fd in names.all
    ensures AllKept(t, names, s.(table := s.table - {fd}))
  {
    var s' := s.(table := s.table - {fd});
    forall i | 0 <= i < |s.backups| ensures Kept(t, names, s'.table, s'.backups[i]) {
      assert Kept(t, names, s.table, s.backups[i]);
    }
  }

  /** A file handed out at another descriptor and put in the place of `fd`. */
  lemma InstallElsewhere(now: Table, limit: nat, n: nat, file: File, fd: nat)
    requires n !in now && n != fd
    ensures Install(now, limit, n, file, fd) == if fd >= limit then (now, false) else (now[fd := file], true)
  {
    assert now[n := file] - {n} == now;
    assert now[n := file][fd := file] - {n} == now[fd := file];
  }

  lemma PlaceKeepsGood(t: Table, names: Names, limit: nat, e: Table, s: State, fd: nat, file: File)
    requires Good(t, names, limit, e, s) && Suited(t, names, limit) && fd in names.all && BackedUp(s.backups, fd)
    ensures var (now, ok) := Install(s.table, limit, Lowest(s.table), file, fd);
      Good(t, names, limit, if ok then e[fd := file] else e, s.(table := now))
  {
    LowestIsUnnamed(t, names, limit, e, s);
    InstallElsewhere(s.table, limit, Lowest(s.table), file, fd);
    if fd < limit { ChangeKeepsGood(t, names, limit, e, s, fd, file); }
  }

  /** A named descriptor that is open is so in `e`. */
  lemma NamedIsInEffect(t: Table, names: Names, limit: nat, e: Table, s: State, n: nat)
    requires Good(t, names, limit, e, s) && n in names.all && n in s.table
    ensures n in e && s.table[n] == e[n]
  {
    CopyIsUnnamed(t, names, s, n);
  }

  lemma DuplicateKeepsGood(t: Table, names: Names, limit: nat, e: Table, s: State, fd: nat, source: nat)
    requires Good(t, names, limit, e, s) && fd in names.all && source in names.all && BackedUp(s.backups, fd)
    requires source in s.table && fd < limit
    ensures source in e && Good(t, names, limit, e[fd := e[source]], s.(table := s.table[fd := s.table[source]]))
  {
    NamedIsInEffect(t, names, limit, e, s, source);
    ChangeKeepsGood(t, names, limit, e, s, fd, e[source]);
  }

  lemma DupKeepsGood(t: Table, names: Names, limit: nat, e: Table, s: State, fd: nat, source: nat)
    requires Good(t, names, limit, e, s) && Suited(t, names, limit) && fd in names.all && source in names.all
    requires BackedUp(s.backups, fd)
    ensures var (s', ok) := Perform(s, limit, Dup(fd, source));
      Good(t, names, limit, if ok then Effect(e, Dup(fd, source)) else e, s')
  {
    DupPerforms(s, limit, fd, source);
    var made := Ensure(s, limit, source);
    if made.Some? {
      var s' := made.value;
      EnsureKeepsGood(t, names, limit, e, s, source);
      if source in s'.table && fd < limit { DuplicateKeepsGood(t, names, limit, e, s', fd, source); }
    }
  }

  lemma OpenKeepsGood(t: Table, names: Names, limit: nat, e: Table, s: State, fd: nat, file: Option<File>)
    requires Good(t, names, limit, e, s) && Suited(t, names, limit) && fd in names.all && BackedUp(s.backups, fd)
    ensures var (s', ok) := Perform(s, limit, Open(fd, file));
      Good(t, names, limit, if ok then Effect(e, Open(fd, file)) else e, s')
  {
    if file.Some? { PlaceKeepsGood(t, names, limit, e, s, fd, file.value); }
  }

  lemma HereKeepsGood(
      t: Table, names: Names, limit: nat, e: Table, s: State, fd: nat, pipe: Option<File>, written: bool)
    requires Good(t, names, limit, e, s) && Suited(t, names, limit) && fd in names.all && BackedUp(s.backups, fd)
    ensures var r := Here(fd, pipe, written); var (s', ok) := Perform(s, limit, r);
      Good(t, names, limit, if ok then Effect(e, r) else e, s')
  {
    if pipe.Some? { PlaceKeepsGood(t, names, limit, e, s, fd, pipe.value); }
  }

  lemma PerformKeepsGood(t: Table, names: Names, limit: nat, e: Table, s: State, r: Redirection)
    requires Good(t, names, limit, e, s) && Suited(t, names, limit) && Covers(names, r)
    requires BackedUp(s.backups, r.fd)
    ensures var (s', ok) := Perform(s, limit, r); Good(t, names, limit, if ok then Effect(e, r) else e, s')
  {
    match r
    case Open(fd, file) => OpenKeepsGood(t, names, limit, e, s, fd, file);
    case Here(fd, pipe, written) => HereKeepsGood(t, names, limit, e, s, fd, pipe, written);
    case Dup(fd, source) => DupKeepsGood(t, names, limit, e, s, fd, source);
    case Close(fd) => CloseKeepsGood(t, names, limit, e, s, fd);
    case Unsupported(_) =>
  }

  lemma ApplyKeepsGood(t: Table, names: Names, limit: nat, e: Table, s: State, r: Redirection)
    requires Good(t, names, limit, e, s) && Suited(t, names, limit) && Covers(names, r)
    ensures var (s', ok) := Apply(s, limit, r); Good(t, names, limit, if ok then Effect(e, r) else e, s')
  {
    if Ensure(s, limit, r.fd).Some? {
      EnsureKeepsGood(t, names, limit, e, s, r.fd);
      PerformKeepsGood(t, names, limit, e, Ensure(s, limit, r.fd).value, r);
    }
  }

  lemma {:induction false} AllKeepGood(
      t: Table, names: Names, limit: nat, e: Table, s: State, rs: seq<Redirection>) returns (e': Table)
    requires Good(t, names, limit, e, s) && Suited(t, names, limit) && Within(names, rs)
    ensures Good(t, names, limit, e', ApplyAll(s, limit, rs).0)
    ensures ApplyAll(s, limit, rs).1 ==> e' == Effects(e, rs)
    decreases |rs|
  {
    e' := e;
    if rs != [] {
      ApplyKeepsGood(t, names, limit, e, s, rs[0]);
      var (s', ok) := Apply(s, limit, rs[0]);
      if ok { e' := AllKeepGood(t, names, limit, Effect(e, rs[0]), s', rs[1..]); }
    }
  }

  // ---------------------------------------------------------------- success and failure

  /** Without its copies the table is the effect of the redirections. */
  lemma ReleaseGivesEffect(t: Table, names: Names, limit: nat, e: Table, s: State)
    requires Good(t, names, limit, e, s)
    ensures Release(s.table, s.backups) == e
  {
    ReleaseDrops(s.table, s.backups);
    forall n: nat | n in e ensures !IsCopy(s.backups, n) { CopyIsUnnamed(t, names, s, n); }
  }

  /** What rolling back has restored so far: the entry table, but for the descriptors still backed up. */
  predicate RollingBack(t: Table, s: State) {
    (forall n :: n in s.table && n !in t ==> IsCopy(s.backups, n) || BackedUp(s.backups, n))
    && (forall n :: n in t && !BackedUp(s.backups, n) ==> n in s.table && s.table[n] == t[n])
  }

  lemma RestoreIsKept(t: Table, names: Names, s: State)
    requires AllKept(t, names, s) && s.backups != []
    ensures AllKept(t, names, State(Restore(s.table, s.backups[0]), s.backups[1..]))
  {
    var b := s.backups[0];
    var s' := State(Restore(s.table, b), s.backups[1..]);
    assert Kept(t, names, s.table, b);
    forall i | 0 <= i < |s'.backups| ensures Kept(t, names, s'.table, s'.backups[i]) {
      assert Kept(t, names, s.table, s.backups[i + 1]);
    }
  }

  /** The table after one restore: only the descriptor and its copy change. */
  lemma RestoreOne(t: Table, names: Names, now: Table, b: Backup)
    requires Kept(t, names, now, b)
    ensures var r := Restore(now, b);
      (forall n :: n in r && n != b.fd ==> n in now && Some(n) != b.saved && r[n] == now[n])
      && (forall n :: n in now && n != b.fd && Some(n) != b.saved ==> n in r && r[n] == now[n])
      && (b.fd in r <==> b.fd in t) && (b.fd in t ==> r[b.fd] == t[b.fd])
  {
  }

  lemma RestoreRollsBack(t: Table, names: Names, s: State)
    requires AllKept(t, names, s) && RollingBack(t, s) && s.backups != []
    ensures RollingBack(t, State(Restore(s.table, s.backups[0]), s.backups[1..]))
  {
    var b, rest := s.backups[0], s.backups[1..];
    assert Kept(t, names, s.table, b);
    RestoreOne(t, names, s.table, b);
    forall n: nat
      ensures BackedUp(s.backups, n) == (b.fd == n || BackedUp(rest, n))
      ensures IsCopy(s.backups, n) == (b.saved == Some(n) || IsCopy(rest, n))
    {
      FewerBackups(s.backups, n);
    }
  }

  lemma {:induction false} RollBackGivesEntry(t: Table, names: Names, s: State)
    requires AllKept(t, names, s) && RollingBack(t, s)
    ensures RollBack(s.table, s.backups) == t
    decreases |s.backups|
  {
    if s.backups == [] {
      assert forall n :: n in t ==> !BackedUp(s.backups, n);
    } else {
      RestoreIsKept(t, names, s);
      RestoreRollsBack(t, names, s);
      RollBackGivesEntry(t, names, State(Restore(s.table, s.backups[0]), s.backups[1..]));
    }
  }

  /**
   * Redirections are a transaction when there is room for one copy of each descriptor they name,
   * and each of those that is closed on entry or that they close has more free descriptors below
   * it than there are named ones.
   */
  lemma RedirectionsAreTransaction(t: Table, limit: nat, rs: seq<Redirection>)
    requires Suited(t, NamesOf(rs), limit)
    ensures IsTransaction(t, limit, rs)
  {
    var names, start := NamesOf(rs), State(t, []);
    NamesAreNamed(rs);
    assert start.table.Keys + BackedUpSet([]) == t.Keys;
    var e := AllKeepGood(t, names, limit, t, start, rs);
    var (s, ok) := ApplyAll(start, limit, rs);
    if ok {
      ReleaseGivesEffect(t, names, limit, e, s);
    } else {
      RollBackGivesEntry(t, names, s);
    }
  }

  lemma {:induction false} NamesAreNamed(rs: seq<Redirection>)
    ensures forall k :: 0 <= k < |rs| ==> Named(rs[k]) <= AllNamed(rs)
  {
    if rs != [] {
      NamesAreNamed(rs[1..]);
      forall k | 0 <= k < |rs| ensures Named(rs[k]) <= AllNamed(rs) {
        if k > 0 { assert rs[k] == rs[1..][k - 1]; }
      }
    }
  }

  /** In particular when every descriptor named is open on entry and none is closed. */
  lemma OpenOnesAreTransaction(t: Table, limit: nat, rs: seq<Redirection>)
    requires AllInScope(t, rs) && Below(t, limit) && |AllNamed(rs)| <= limit - |t|
    ensures IsTransaction(t, limit, rs)
  {
    AllNamedAreOpen(t, rs);
    RedirectionsAreTransaction(t, limit, rs);
  }

  lemma {:induction false} AllNamedAreOpen(t: Table, rs: seq<Redirection>)
    requires AllInScope(t, rs)
    ensures AllNamed(rs) <= t.Keys
  {
    if rs != [] { AllNamedAreOpen(t, rs[1..]); }
  }

  // ---------------------------------------------------------------- which redirections succeed

  /** What a redirection needs when there are descriptors enough; `e` is the table as the ones before it left it. */
  predicate Works(e: Table, limit: nat, r: Redirection) {
    match r
    case Open(fd, file) => fd < limit && file.Some?
    case Here(fd, pipe, written) => fd < limit && pipe.Some? && written
    case Dup(fd, source) => fd < limit && source in e
    case Close(_) => true
    case Unsupported(_) => false
  }

  predicate AllWork(e: Table, limit: nat, rs: seq<Redirection>)
    decreases |rs|
  {
    rs == [] || (Works(e, limit, rs[0]) && AllWork(Effect(e, rs[0]), limit, rs[1..]))
  }

  /** Room for the two ends of a pipe besides the copies. */
  predicate Roomy(t: Table, names: Names, limit: nat) {
    Suited(t, names, limit) && |t| + |names.all| + 2 <= limit && |names.all| <= 8
  }

  /** Two descriptors can still be handed out. */
  lemma TwoAreFree(t: Table, names: Names, limit: nat, e: Table, s: State, file: File)
    requires Good(t, names, limit, e, s) && Roomy(t, names, limit)
    ensures Lowest(s.table) < limit && Lowest(s.table[Lowest(s.table) := file]) < limit
  {
    assert |s.table| + 2 <= limit by {
      BackupsAreFew(t, names, s);
      SubsetSize(s.table.Keys, s.table.Keys + BackedUpSet(s.backups));
    }
    OneAfterAnother(s.table, limit, file);
  }

  lemma OneAfterAnother(now: Table, limit: nat, file: File)
    requires Below(now, limit) && |now| + 2 <= limit
    ensures Lowest(now) < limit && Lowest(now[Lowest(now) := file]) < limit
  {
    var n := Lowest(now);
    RoomMeansSmaller(now, limit);
    var next := now[n := file];
    assert next.Keys == now.Keys + {n};
    RoomMeansSmaller(next, limit);
  }

  lemma EnsureWorks(t: Table, names: Names, limit: nat, e: Table, s: State, fd: nat)
    requires Good(t, names, limit, e, s) && Roomy(t, names, limit) && fd in names.all
    ensures Ensure(s, limit, fd).Some?
  {
    if !BackedUp(s.backups, fd) { RoomForCopy(t, names, limit, e, s, fd); }
  }

  lemma PerformWorks(t: Table, names: Names, limit: nat, e: Table, s: State, r: Redirection)
    requires Good(t, names, limit, e, s) && Roomy(t, names, limit) && Covers(names, r)
    ensures Perform(s, limit, r).1 == Works(e, limit, r)
  {
    match r
    case Open(fd, file) => OpenWorks(t, names, limit, e, s, fd, file);
    case Here(fd, pipe, written) => HereWorks(t, names, limit, e, s, fd, pipe, written);
    case Dup(fd, source) => DupWorks(t, names, limit, e, s, fd, source);
    case _ =>
  }

  lemma OpenWorks(t: Table, names: Names, limit: nat, e: Table, s: State, fd: nat, file: Option<File>)
    requires Good(t, names, limit, e, s) && Roomy(t, names, limit)
    ensures Perform(s, limit, Open(fd, file)).1 == (fd < limit && file.Some?)
  {
    if file.Some? {
      TwoAreFree(t, names, limit, e, s, file.value);
      OpenPerforms(s, limit, fd, file.value);
    }
  }

  lemma OpenPerforms(s: State, limit: nat, fd: nat, file: File)
    requires Lowest(s.table) < limit
    ensures Perform(s, limit, Open(fd, Some(file))).1 == (fd < limit)
  {
  }

  lemma HereWorks(t: Table, names: Names, limit: nat, e: Table, s: State, fd: nat, pipe: Option<File>, written: bool)
    requires Good(t, names, limit, e, s) && Roomy(t, names, limit)
    ensures Perform(s, limit, Here(fd, pipe, written)).1 == (fd < limit && pipe.Some? && written)
  {
    if pipe.Some? {
      TwoAreFree(t, names, limit, e, s, pipe.value);
      HerePerforms(s, limit, fd, pipe.value, written);
    }
  }

  lemma HerePerforms(s: State, limit: nat, fd: nat, file: File, written: bool)
    requires Lowest(s.table) < limit && Lowest(s.table[Lowest(s.table) := file]) < limit
    ensures Perform(s, limit, Here(fd, Some(file), written)).1 == (fd < limit && written)
  {
  }

  lemma DupWorks(t: Table, names: Names, limit: nat, e: Table, s: State, fd: nat, source: nat)
    requires Good(t, names, limit, e, s) && Roomy(t, names, limit) && source in names.all
    ensures Perform(s, limit, Dup(fd, source)).1 == (fd < limit && source in e)
  {
    DupPerforms(s, limit, fd, source);
    EnsureWorks(t, names, limit, e, s, source);
    var s' := Ensure(s, limit, source).value;
    EnsureKeepsGood(t, names, limit, e, s, source);
    if source in s'.table { NamedIsInEffect(t, names, limit, e, s', source); }
  }

  lemma ApplyWorks(t: Table, names: Names, limit: nat, e: Table, s: State, r: Redirection)
    requires Good(t, names, limit, e, s) && Roomy(t, names, limit) && Covers(names, r)
    ensures Apply(s, limit, r).1 == Works(e, limit, r)
  {
    EnsureWorks(t, names, limit, e, s, r.fd);
    var s' := Ensure(s, limit, r.fd).value;
    EnsureKeepsGood(t, names, limit, e, s, r.fd);
    PerformWorks(t, names, limit, e, s', r);
  }

  lemma {:induction false} AllWorkIff(t: Table, names: Names, limit: nat, e: Table, s: State, rs: seq<Redirection>)
    requires Good(t, names, limit, e, s) && Roomy(t, names, limit) && Within(names, rs)
    ensures ApplyAll(s, limit, rs).1 <==> AllWork(e, limit, rs)
    decreases |rs|
  {
    if rs != [] {
      var r := rs[0];
      ApplyWorks(t, names, limit, e, s, r);
      ApplyKeepsGood(t, names, limit, e, s, r);
      var (s', ok) := Apply(s, limit, r);
      if ok { AllWorkIff(t, names, limit, Effect(e, r), s', rs[1..]); }
    }
  }

  lemma {:induction false} SuccessTakesSlots(s: State, limit: nat, rs: seq<Redirection>, names: set<nat>)
    requires Slots(s, names) && ApplyAll(s, limit, rs).1
    ensures |names + AllNamed(rs)| <= MAX_REDIRECTIONS
    decreases |rs|
  {
    if rs == [] {
      assert names + AllNamed(rs) == names;
    } else {
      ApplyTakesSlots(s, limit, rs[0], names);
      var (s', ok) := Apply(s, limit, rs[0]);
      var all := names + Named(rs[0]);
      assert ok && Slots(s', all);
      SuccessTakesSlots(s', limit, rs[1..], all);
      AllNamedFirst(names, rs);
    }
  }

  lemma AllNamedFirst(names: set<nat>, rs: seq<Redirection>)
    requires rs != []
    ensures names + AllNamed(rs) == names + Named(rs[0]) + AllNamed(rs[1..])
  {
  }

  /** With room for the copies and a pipe, redirections succeed exactly when each works and eight slots suffice. */
  lemma RedirectionsSucceedIff(t: Table, limit: nat, rs: seq<Redirection>)
    requires Suited(t, NamesOf(rs), limit) && |t| + |AllNamed(rs)| + 2 <= limit
    ensures ExecRedirections(t, limit, rs).1 <==> |AllNamed(rs)| <= 8 && AllWork(t, limit, rs)
  {
    var names, start := NamesOf(rs), State(t, []);
    assert start.table.Keys + BackedUpSet([]) == t.Keys;
    NamesAreNamed(rs);
    if |names.all| <= 8 {
      AllWorkIff(t, names, limit, t, start, rs);
    } else {
      TooManyNamesFail(t, limit, rs);
    }
  }

  /** More than eight descriptors named are refused, whatever the table. */
  lemma TooManyNamesFail(t: Table, limit: nat, rs: seq<Redirection>)
    requires |AllNamed(rs)| > 8
    ensures !ExecRedirections(t, limit, rs).1
  {
    assert {} + AllNamed(rs) == AllNamed(rs);
    if ApplyAll(State(t, []), limit, rs).1 { SuccessTakesSlots(State(t, []), limit, rs, {}); }
  }
}
