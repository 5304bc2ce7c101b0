/** The audit log against the history of everything ever written: rotation loses only the oldest
    entries, as long as no two rotations share a second. */
module LogHistory {
  import opened Common
  import opened AuditLog

  ghost predicate Suffix(a: seq<Entry>, b: seq<Entry>) {
    |a| <= |b| && b[|b| - |a|..] == a
  }

  lemma SuffixTransitive(a: seq<Entry>, b: seq<Entry>, c: seq<Entry>)
    requires Suffix(a, b) && Suffix(b, c)
    ensures Suffix(a, c)
  {
    assert b[|b| - |a|..] == c[|c| - |b|..][|b| - |a|..] == c[|c| - |a|..];
  }

  lemma SuffixAppend(a: seq<Entry>, b: seq<Entry>, t: seq<Entry>)
    requires Suffix(a, b)
    ensures Suffix(a + t, b + t)
  {
    assert (b + t)[|b| - |a|..] == b[|b| - |a|..] + t;
  }

  /** The archives alone, in name order. */
  ghost function Archived(archives: map<Stamp, seq<Entry>>): seq<Entry> {
    SortedIsSorted(archives.Keys);
    Flatten(archives, Sorted(archives.Keys))
  }

  lemma KeptIs(s: State)
    ensures Kept(s) == Archived(s.archives) + s.current
  {}

  lemma {:induction false} FlattenAgrees(a: map<Stamp, seq<Entry>>, b: map<Stamp, seq<Entry>>, names: seq<Stamp>)
    requires forall i :: 0 <= i < |names| ==> names[i] in a && names[i] in b && a[names[i]] == b[names[i]]
    ensures Flatten(a, names) == Flatten(b, names)
  {
    if names != [] { FlattenAgrees(a, b, names[..|names| - 1]); }
  }

  lemma {:induction false} FlattenHead(a: map<Stamp, seq<Entry>>, names: seq<Stamp>)
    requires names != [] && forall i :: 0 <= i < |names| ==> names[i] in a
    ensures Flatten(a, names) == a[names[0]] + Flatten(a, names[1..])
  {
    var n := |names| - 1;
    if n > 0 {
      FlattenHead(a, names[..n]);
      assert names[..n][1..] == names[1..][..n - 1];
      assert names[1..][n - 1] == names[n];
    } else {
      assert names[..0] == [] && names[1..] == [];
      assert Flatten(a, []) == [];
    }
  }

  lemma FlattenSnoc(a: map<Stamp, seq<Entry>>, names: seq<Stamp>, now: Stamp)
    requires now in a && forall i :: 0 <= i < |names| ==> names[i] in a
    ensures Flatten(a, names + [now]) == Flatten(a, names) + a[now]
  {
    assert (names + [now])[..|names|] == names;
  }

  /** A newer archive goes to the end. */
  lemma ArchiveAppends(archives: map<Stamp, seq<Entry>>, now: Stamp, content: seq<Entry>)
    requires forall x :: x in archives ==> x < now
    ensures Archived(archives[now := content]) == Archived(archives) + content
  {
    hide Sorted, Flatten;
    var after, names := archives[now := content], Sorted(archives.Keys);
    assert after.Keys == archives.Keys + {now};
    SortedAppend(archives.Keys, now);
    SortedIsSorted(archives.Keys);
    assert forall i :: 0 <= i < |names| ==> names[i] in names;
    FlattenAgrees(archives, after, names);
    FlattenSnoc(after, names, now);
  }

  lemma TailIsSuffix(a: seq<Entry>, t: seq<Entry>)
    ensures Suffix(t, a + t)
  {}

  lemma DropHead(rest: map<Stamp, seq<Entry>>, names: seq<Stamp>)
    requires names != [] && (forall i :: 0 <= i < |names| ==> names[i] in rest)
    requires forall i :: 0 < i < |names| ==> names[0] < names[i]
    ensures var after := rest - {names[0]};
            && (forall i :: 0 <= i < |names[1..]| ==> names[1..][i] in after)
            && Flatten(rest, names) == rest[names[0]] + Flatten(after, names[1..])
  {
    hide Flatten;
    var after := rest - {names[0]};
    assert forall i :: 0 <= i < |names[1..]| ==> names[1..][i] == names[i + 1];
    FlattenHead(rest, names);
    FlattenAgrees(rest, after, names[1..]);
  }

  lemma DropOneLeavesSuffix(rest: map<Stamp, seq<Entry>>)
    requires |rest| > 0
    ensures |Sorted(rest.Keys)| > 0
    ensures Suffix(Archived(rest - {Sorted(rest.Keys)[0]}), Archived(rest))
  {
    hide Sorted, Flatten, Suffix;
    assert rest.Keys != {};
    var names := Sorted(rest.Keys);
    var after := rest - {names[0]};
    SortedDropOldest(rest.Keys);
    SortedIsSorted(rest.Keys);
    assert after.Keys == rest.Keys - {names[0]};
    assert forall i :: 0 <= i < |names| ==> names[i] in names;
    DropHead(rest, names);
    TailIsSuffix(rest[names[0]], Flatten(after, names[1..]));
  }

  /** Dropping archives by age leaves a suffix. */
  lemma {:induction false} DropLeavesSuffix(archives: map<Stamp, seq<Entry>>, n: nat)
    requires n <= |archives|
    ensures Suffix(Archived(DropOldest(archives, n)), Archived(archives))
  {
    hide Sorted, Archived, Suffix, DropOldest;
    if n == 0 {
      DropNone(archives);
      WholeIsSuffix(Archived(archives));
    } else {
      DropLeavesSuffix(archives, n - 1);
      DropStep(archives, n - 1);
      var rest, after := DropOldest(archives, n - 1), DropOldest(archives, n);
      DropOneLeavesSuffix(rest);
      SuffixTransitive(Archived(after), Archived(rest), Archived(archives));
    }
  }

  lemma CleanLeavesSuffix(archives: map<Stamp, seq<Entry>>)
    ensures Suffix(Archived(Clean(archives)), Archived(archives)) && |Clean(archives)| <= KEPT_ARCHIVES
  {
    hide Sorted, DropOldest;
    if |archives| > KEPT_ARCHIVES { DropLeavesSuffix(archives, |archives| - KEPT_ARCHIVES); }
  }

  // ---- runs ----

  datatype Event = Event(entry: Entry, tooBig: bool, renameOk: bool, writeOk: bool, now: Stamp)

  function Step(s: State, e: Event): State { Write(s, e.entry, e.tooBig, e.renameOk, e.writeOk, e.now) }

  /** The entry, if it could be written. */
  function Wrote(e: Event): seq<Entry> { if e.writeOk then [e.entry] else [] }

  function Run(s: State, es: seq<Event>): State {
    if es == [] then s else Step(Run(s, es[..|es| - 1]), es[|es| - 1])
  }

  function Entries(es: seq<Event>): seq<Entry> {
    if es == [] then [] else Entries(es[..|es| - 1]) + Wrote(es[|es| - 1])
  }

  ghost predicate Rotates(s: State, e: Event) { MustRotate(s, e.tooBig) && e.renameOk }

  /** A rotation's stamp is later than every archive's. */
  ghost predicate FreshStamp(s: State, e: Event) {
    Rotates(s, e) ==> forall x :: x in s.archives ==> x < e.now
  }

  ghost predicate StampsIncrease(s: State, es: seq<Event>) {
    forall k :: 0 <= k < |es| ==> FreshStamp(Run(s, es[..k]), es[k])
  }

  ghost predicate Opened(s: State) { s.eventCount == |s.current| && |s.archives| <= KEPT_ARCHIVES && s.maxEvents > 0 }

  lemma WriteKeepsSuffix(s: State, e: Event)
    requires FreshStamp(s, e)
    ensures Suffix(Kept(Step(s, e)), Kept(s) + Wrote(e))
  {
    hide Sorted, Clean, Archived, Kept, Suffix;
    KeptIs(s);
    KeptIs(Step(s, e));
    if Rotates(s, e) {
      ArchiveAppends(s.archives, e.now, s.current);
      var cleaned := Clean(s.archives[e.now := s.current]);
      CleanLeavesSuffix(s.archives[e.now := s.current]);
      SuffixAppend(Archived(cleaned), Kept(s), Wrote(e));
      assert Archived(cleaned) + ([] + Wrote(e)) == Archived(cleaned) + Wrote(e);
    } else {
      assert s.current + [] == s.current;
      assert Kept(Step(s, e)) == Archived(s.archives) + (s.current + Wrote(e)) == Kept(s) + Wrote(e);
      WholeIsSuffix(Kept(s) + Wrote(e));
    }
  }

  lemma StampsOfPrefix(s: State, es: seq<Event>)
    requires es != [] && StampsIncrease(s, es)
    ensures StampsIncrease(s, es[..|es| - 1]) && FreshStamp(Run(s, es[..|es| - 1]), es[|es| - 1])
  {
    hide Run, FreshStamp;
    StepsSplit(es[..|es| - 1], es, (x: seq<Event>, e: Event) => FreshStamp(Run(s, x), e));
  }

  /** One more write after a run that kept a suffix. */
  lemma SuffixGrows(kept: seq<Entry>, kept': seq<Entry>, history: seq<Entry>, wrote: seq<Entry>)
    requires Suffix(kept, history) && Suffix(kept', kept + wrote)
    ensures Suffix(kept', history + wrote)
  {
    hide Suffix;
    SuffixAppend(kept, history, wrote);
    SuffixTransitive(kept', kept + wrote, history + wrote);
  }

  /** Rotation loses only the oldest: what the archives and the current file hold is a suffix of all
      entries, at most five archives remain, and the event count is the length of the current file. */
  lemma {:induction false} RotationLosesOnlyOldest(s: State, es: seq<Event>)
    requires Opened(s) && StampsIncrease(s, es)
    ensures Suffix(Kept(Run(s, es)), Kept(s) + Entries(es))
    ensures Opened(Run(s, es))
  {
    hide Kept, Suffix, Step, Opened, StampsIncrease, FreshStamp, Wrote;
    if es == [] {
      assert Kept(s) + [] == Kept(s);
      WholeIsSuffix(Kept(s));
    } else {
      var n := |es| - 1;
      var before := Run(s, es[..n]);
      StampsOfPrefix(s, es);
      RotationLosesOnlyOldest(s, es[..n]);
      WriteKeepsSuffix(before, es[n]);
      WriteStaysOpened(before, es[n]);
      SuffixGrows(Kept(before), Kept(Run(s, es)), Kept(s) + Entries(es[..n]), Wrote(es[n]));
      assert Kept(s) + Entries(es) == Kept(s) + Entries(es[..n]) + Wrote(es[n]);
    }
  }

  lemma WholeIsSuffix(a: seq<Entry>)
    ensures Suffix(a, a)
  {}

  lemma WriteStaysOpened(s: State, e: Event)
    requires Opened(s)
    ensures Opened(Step(s, e)) && Step(s, e).maxEvents == s.maxEvents
    ensures e.renameOk ==> |Step(s, e).current| <= s.maxEvents
  {
    hide Clean, Archived, Suffix, DropOldest;
    CleanLeavesSuffix(s.archives[e.now := s.current]);
  }

  /** Whatever the log was opened with, the current file is within its limit after every write whose
      rotation, if due, could rename the file. */
  lemma CurrentFileIsBounded(s: State, es: seq<Event>)
    requires Opened(s) && es != [] && es[|es| - 1].renameOk
    ensures Opened(Run(s, es)) && Run(s, es).maxEvents == s.maxEvents && |Run(s, es).current| <= s.maxEvents
  {
    hide Step, Opened;
    var n := |es| - 1;
    RunsStayOpened(s, es[..n]);
    WriteStaysOpened(Run(s, es[..n]), es[n]);
  }

  lemma {:induction false} RunsStayOpened(s: State, es: seq<Event>)
    requires Opened(s)
    ensures Opened(Run(s, es)) && Run(s, es).maxEvents == s.maxEvents
  {
    hide Step, Opened;
    if es != [] {
      RunsStayOpened(s, es[..|es| - 1]);
      WriteStaysOpened(Run(s, es[..|es| - 1]), es[|es| - 1]);
    }
  }

  // ---- when a write rotates, and how much is kept ----

  /** Below the count limit, with a file that is not too big, a write only appends. */
  lemma WriteBelowLimitAppends(s: State, e: Event)
    requires s.eventCount < s.maxEvents && !e.tooBig
    ensures Step(s, e) == s.(current := s.current + Wrote(e), eventCount := s.eventCount + |Wrote(e)|)
  {
    assert s.current + [] == s.current;
  }

  /** At the limit, or with a file too big, the whole file becomes the archive of its second, a file with the
      new entry alone is started, and of all archives the newest five remain. */
  lemma DueWriteRotates(s: State, e: Event)
    requires (s.eventCount >= s.maxEvents || e.tooBig) && e.renameOk
    ensures var s', after := Step(s, e), s.archives[e.now := s.current];
            && s'.current == Wrote(e) && s'.eventCount == |Wrote(e)| && s'.maxEvents == s.maxEvents
            && |s'.archives| == (if |after| < 5 then |after| else 5)
            && (forall x :: x in s'.archives ==> x in after && s'.archives[x] == after[x])
            && (forall x, y :: x in after && x !in s'.archives && y in s'.archives ==> x < y)
  {
    hide Clean;
    CleanKeepsNewestFive(s.archives[e.now := s.current]);
    assert [] + [e.entry] == [e.entry];
  }

  /** A due rotation whose rename fails only appends. */
  lemma FailedRenameAppends(s: State, e: Event)
    requires !e.renameOk
    ensures Step(s, e) == s.(current := s.current + Wrote(e), eventCount := s.eventCount + |Wrote(e)|)
  {
    assert s.current + [] == s.current;
  }

  lemma {:induction false} DropOldestIsOldest(archives: map<Stamp, seq<Entry>>, n: nat)
    requires n <= |archives|
    ensures var rest := DropOldest(archives, n);
            && |rest| == |archives| - n && (forall x :: x in rest ==> x in archives && rest[x] == archives[x])
            && (forall x, y :: x in archives && x !in rest && y in rest ==> x < y)
  {
    hide Sorted, DropOldest;
    DropIsSmaller(archives, n);
    if n == 0 {
      DropNone(archives);
    } else {
      DropOldestIsOldest(archives, n - 1);
      DropStep(archives, n - 1);
      var before := DropOldest(archives, n - 1);
      FirstIsOldest(before.Keys);
    }
  }

  lemma FirstIsOldest(s: set<Stamp>)
    requires s != {}
    ensures |Sorted(s)| > 0 && Sorted(s)[0] in s && forall y :: y in s && y != Sorted(s)[0] ==> Sorted(s)[0] < y
  {
    SortedIsSorted(s);
    assert Sorted(s)[0] in Sorted(s);
    forall y | y in s && y != Sorted(s)[0] ensures Sorted(s)[0] < y {
      var i :| 0 <= i < |Sorted(s)| && Sorted(s)[i] == y;
    }
  }

  lemma CleanKeepsNewestFive(archives: map<Stamp, seq<Entry>>)
    ensures var kept := Clean(archives);
            && |kept| == (if |archives| < 5 then |archives| else 5)
            && (forall x :: x in kept ==> x in archives && kept[x] == archives[x])
            && (forall x, y :: x in archives && x !in kept && y in kept ==> x < y)
  {
    hide DropOldest;
    if |archives| > 5 { DropOldestIsOldest(archives, |archives| - 5); }
  }

  /** No file is too big: rotations are for the count alone. */
  ghost predicate NeverTooBig(es: seq<Event>) { forall k :: 0 <= k < |es| ==> !es[k].tooBig }

  /** A rotation leaves the whole rotated file in place. */
  lemma RotatedFileIsKept(s: State, e: Event)
    requires Opened(s) && FreshStamp(s, e) && !e.tooBig
    ensures |Kept(Step(s, e))| >= if Rotates(s, e) then s.maxEvents else |Kept(s)| + |Wrote(e)|
  {
    hide Sorted, Clean, Archived, Kept, Suffix;
    KeptIs(s);
    KeptIs(Step(s, e));
    if Rotates(s, e) {
      var after := s.archives[e.now := s.current];
      CleanKeepsNewest(after, e.now);
      ArchivedEndsWith(Clean(after), e.now);
    }
  }

  /** Over any run in which no file is too big at least as many of the entries written are kept as one file
      may hold, or all of them: the newest ones. */
  lemma {:induction false} NewestAreKept(s: State, es: seq<Event>)
    requires Opened(s) && StampsIncrease(s, es) && NeverTooBig(es)
    ensures |Kept(Run(s, es))| >= if |Entries(es)| < s.maxEvents then |Entries(es)| else s.maxEvents
    ensures Run(s, es).maxEvents == s.maxEvents
  {
    hide Kept, Step, Opened, StampsIncrease, FreshStamp, Rotates;
    if es != [] {
      var n := |es| - 1;
      StampsOfPrefix(s, es);
      NewestAreKept(s, es[..n]);
      RunsStayOpened(s, es[..n]);
      WriteStaysOpened(Run(s, es[..n]), es[n]);
      RotatedFileIsKept(Run(s, es[..n]), es[n]);
    }
  }

  /** In particular the last entries written, up to the limit of one file, are on disk in order. */
  lemma LastEntriesAreOnDisk(s: State, es: seq<Event>, n: nat)
    requires Opened(s) && StampsIncrease(s, es) && NeverTooBig(es)
    requires n <= |Entries(es)| && n <= s.maxEvents
    ensures Suffix(Entries(es)[|Entries(es)| - n..], Kept(Run(s, es)))
  {
    hide Kept, Run, Opened, StampsIncrease;
    RotationLosesOnlyOldest(s, es);
    NewestAreKept(s, es);
    ShorterSuffix(Entries(es)[|Entries(es)| - n..], Kept(Run(s, es)), Kept(s) + Entries(es));
  }

  lemma ShorterSuffix(a: seq<Entry>, b: seq<Entry>, c: seq<Entry>)
    requires Suffix(a, c) && Suffix(b, c) && |a| <= |b|
    ensures Suffix(a, b)
  {
    assert b == c[|c| - |b|..];
    assert b[|b| - |a|..] == c[|c| - |a|..];
  }

  // ---- two rotations in one second ----

  ghost predicate Distinct(a: seq<Entry>) {
    forall i, j :: 0 <= i < j < |a| ==> a[i] != a[j]
  }

  /** With a clock that does not go back, a rotation keeps a suffix exactly when its second is new
      or overwrites the only archive. */
  lemma SameSecondRotation(s: State, e: Event)
    requires Opened(s) && Rotates(s, e) && Distinct(Kept(s) + Wrote(e))
    requires forall x :: x in s.archives ==> x <= e.now && s.archives[x] != []
    ensures Suffix(Kept(Step(s, e)), Kept(s) + Wrote(e)) <==> e.now !in s.archives || |s.archives| == 1
  {
    hide Sorted, Clean;
    if e.now !in s.archives {
      WriteKeepsSuffix(s, e);
    } else {
      OverwriteNewest(s, e);
    }
  }

  /** Whatever the clock does, rotating a file that holds entries keeps a suffix exactly when the stamp is
      later than every archive's or overwrites the only archive: a clock set back breaks the order too. */
  lemma RotationKeepsSuffixExactly(s: State, e: Event)
    requires Opened(s) && Rotates(s, e) && s.current != [] && Distinct(Kept(s) + Wrote(e))
    requires forall x :: x in s.archives ==> s.archives[x] != []
    ensures Suffix(Kept(Step(s, e)), Kept(s) + Wrote(e)) <==>
              (forall x :: x in s.archives ==> x < e.now) || (e.now in s.archives && |s.archives| == 1)
  {
    hide Sorted, Clean, Kept, Archived, Step, Suffix, Distinct;
    if x :| x in s.archives && x > e.now {
      BackwardsRotation(s, e, x);
      OnlyKey(s.archives, x);
    } else {
      SameSecondRotation(s, e);
    }
  }

  lemma OnlyKey(m: map<Stamp, seq<Entry>>, k: Stamp)
    requires k in m
    ensures |m| == 1 ==> m.Keys == {k}
  {
    assert |m.Keys - {k}| == |m| - 1;
  }

  lemma {:induction false} DropKeepsNewest(archives: map<Stamp, seq<Entry>>, n: nat, newest: Stamp)
    requires n < |archives| && newest in archives && forall x :: x in archives ==> x <= newest
    ensures newest in DropOldest(archives, n) && DropOldest(archives, n)[newest] == archives[newest]
  {
    hide Sorted, DropOldest;
    if n == 0 {
      DropNone(archives);
    } else {
      DropKeepsNewest(archives, n - 1, newest);
      DropStep(archives, n - 1);
      DropIsSmaller(archives, n - 1);
      var rest := DropOldest(archives, n - 1);
      var names := Sorted(rest.Keys);
      SortedIsSorted(rest.Keys);
      assert names[0] < names[1] && names[1] in names;
    }
  }

  lemma DropIsSmaller(archives: map<Stamp, seq<Entry>>, n: nat)
    requires n <= |archives|
    ensures |DropOldest(archives, n)| == |archives| - n && DropOldest(archives, n).Keys <= archives.Keys
  {}

  /** The newest archive comes last. */
  lemma ArchivedEndsWith(archives: map<Stamp, seq<Entry>>, newest: Stamp)
    requires newest in archives && forall x :: x in archives ==> x <= newest
    ensures Archived(archives) == Archived(archives - {newest}) + archives[newest]
  {
    hide Archived;
    ArchiveAppends(archives - {newest}, newest, archives[newest]);
    assert (archives - {newest})[newest := archives[newest]] == archives;
  }

  lemma CleanKeepsNewest(archives: map<Stamp, seq<Entry>>, newest: Stamp)
    requires newest in archives && forall x :: x in archives ==> x <= newest
    ensures newest in Clean(archives) && Clean(archives)[newest] == archives[newest] &&
          Clean(archives).Keys <= archives.Keys
  {
    hide Sorted, DropOldest;
    if |archives| > KEPT_ARCHIVES {
      DropKeepsNewest(archives, |archives| - KEPT_ARCHIVES, newest);
      DropIsSmaller(archives, |archives| - KEPT_ARCHIVES);
    }
  }

  lemma BackwardsRotation(s: State, e: Event, later: Stamp)
    requires Opened(s) && Rotates(s, e) && s.current != [] && Distinct(Kept(s) + Wrote(e))
    requires later in s.archives && later > e.now && forall x :: x in s.archives ==> s.archives[x] != []
    ensures !Suffix(Kept(Step(s, e)), Kept(s) + Wrote(e))
  {
    hide Sorted, Clean, Kept, Archived, Suffix, Distinct;
    assert s.archives.Keys != {};
    NewestExists(s.archives.Keys);
    var m :| m in s.archives && forall x :: x in s.archives ==> x <= m;
    var after := s.archives[e.now := s.current];
    CleanKeepsNewest(after, m);
    ArchivedEndsWith(s.archives, m);
    ArchivedEndsWith(Clean(after), m);
    KeptIs(s);
    KeptIs(Step(s, e));
    var kept, older, w := Archived(Clean(after) - {m}), Archived(s.archives - {m}), Wrote(e);
    assert kept + s.archives[m] + ([] + w) == Kept(Step(s, e));
    assert older + s.archives[m] + s.current + w == Kept(s) + w;
    OutOfOrderIsNoSuffix(kept, older, s.archives[m], s.current, w);
  }

  /** Moving the last piece of distinct entries forward leaves no suffix. */
  lemma OutOfOrderIsNoSuffix(x: seq<Entry>, y: seq<Entry>, b: seq<Entry>, c: seq<Entry>, w: seq<Entry>)
    requires b != [] && c != [] && Distinct(y + b + c + w)
    ensures !Suffix(x + b + ([] + w), y + b + c + w)
  {
    var short, all := x + b + ([] + w), y + b + c + w;
    assert short[|x| + |b| - 1] == b[|b| - 1] == all[|y| + |b| - 1];
    if Suffix(short, all) { SuffixAligns(short, all, |x| + |b| - 1); }
  }

  lemma SuffixAligns(a: seq<Entry>, b: seq<Entry>, k: nat)
    requires Suffix(a, b) && k < |a|
    ensures a[k] == b[|b| - |a| + k]
  {}

  lemma OverwriteNewest(s: State, e: Event)
    requires Opened(s) && Rotates(s, e) && Distinct(Kept(s) + Wrote(e)) && e.now in s.archives
    requires forall x :: x in s.archives ==> x <= e.now && s.archives[x] != []
    ensures Suffix(Kept(Step(s, e)), Kept(s) + Wrote(e)) <==> |s.archives| == 1
  {
    hide Sorted, Kept, Distinct, Archived, Step, Suffix;
    var lost, older := s.archives[e.now], s.archives - {e.now};
    var kept, rest := Archived(older), s.current + Wrote(e);
    OverwriteLoses(s, e);
    assert older.Keys == s.archives.Keys - {e.now} && |older| == |s.archives| - 1;
    if |older| == 0 {
      EmptyArchived(older);
      assert [] + rest == rest;
      SuffixOfSum(kept + lost, rest);
    } else {
      NonEmptyArchived(older);
      MiddleIsNoSuffix(kept, lost, rest);
    }
  }

  /** A rotation onto an existing newest name replaces that archive by the current file. */
  lemma OverwriteLoses(s: State, e: Event)
    requires Opened(s) && Rotates(s, e) && e.now in s.archives && forall x :: x in s.archives ==> x <= e.now
    ensures var older, rest := Archived(s.archives - {e.now}), s.current + Wrote(e);
            Kept(Step(s, e)) == older + rest && Kept(s) + Wrote(e) == older + s.archives[e.now] + rest
  {
    hide Sorted, Kept, Archived, DropOldest;
    var older := s.archives - {e.now};
    var after := s.archives[e.now := s.current];
    assert older[e.now := s.archives[e.now]] == s.archives && older[e.now := s.current] == after;
    ArchiveAppends(older, e.now, s.archives[e.now]);
    ArchiveAppends(older, e.now, s.current);
    assert after.Keys == s.archives.Keys;
    assert |after| == |after.Keys| == |s.archives|;
    KeptIs(s);
    KeptIs(Step(s, e));
  }

  lemma SuffixOfSum(a: seq<Entry>, b: seq<Entry>)
    ensures Suffix(b, a + b)
  {}

  lemma EmptyArchived(archives: map<Stamp, seq<Entry>>)
    requires |archives| == 0
    ensures Archived(archives) == []
  {}

  lemma NonEmptyArchived(archives: map<Stamp, seq<Entry>>)
    requires |archives| > 0 && forall x :: x in archives ==> archives[x] != []
    ensures Archived(archives) != []
  {
    SortedIsSorted(archives.Keys);
    FlattenHead(archives, Sorted(archives.Keys));
  }

  /** Cutting a middle piece out of distinct entries leaves no suffix. */
  lemma MiddleIsNoSuffix(a: seq<Entry>, b: seq<Entry>, c: seq<Entry>)
    requires a != [] && b != [] && Distinct(a + b + c)
    ensures !Suffix(a + c, a + b + c)
  {
    assert (a + c)[0] == (a + b + c)[0];
    assert (a + b + c)[|b|..][0] == (a + b + c)[|b|];
  }
}
