/** The audit log: a current file and at most five archives, against the history of all entries. */
module AuditLog {

  type Entry = string

  /** Archive names carry the second of their rotation. */
  type Stamp = nat

  const KEPT_ARCHIVES := 5

  /** The largest element is unique, so it can be chosen. */
  function Newest(s: set<Stamp>): (m: Stamp)
    requires s != {}
    ensures m in s && forall x :: x in s ==> x <= m
  {
    NewestExists(s);
    var m :| m in s && forall x :: x in s ==> x <= m;
    m
  }

  lemma {:induction false} NewestExists(s: set<Stamp>)
    requires s != {}
    ensures exists m :: m in s && forall x :: x in s ==> x <= m
    decreases |s|
  {
    var m: Stamp :| m in s;
    assert forall x :: x in s ==> x == m || x in s - {m};
    if s - {m} != {} {
      NewestExists(s - {m});
      var r :| r in s - {m} && forall x :: x in s - {m} ==> x <= r;
      var top := if r >= m then r else m;
      assert top in s && forall x :: x in s ==> x <= top;
    }
  }

  lemma NewestIs(s: set<Stamp>, m: Stamp)
    requires m in s && forall x :: x in s ==> x <= m
    ensures Newest(s) == m
  {}

  /** File names in name order; rotation stamps make name order time order. */
  function Sorted(s: set<Stamp>): (r: seq<Stamp>)
    ensures |r| == |s|
    decreases |s|
  {
    if s == {} then [] else var m := Newest(s); Sorted(s - {m}) + [m]
  }

  lemma {:induction false} SortedIsSorted(s: set<Stamp>)
    ensures forall i, j :: 0 <= i < j < |Sorted(s)| ==> Sorted(s)[i] < Sorted(s)[j]
    ensures forall x :: x in Sorted(s) <==> x in s
    decreases |s|
  {
    if s != {} {
      var m := Newest(s);
      SortedIsSorted(s - {m});
      assert forall i :: 0 <= i < |s| - 1 ==> Sorted(s)[i] == Sorted(s - {m})[i] && Sorted(s)[i] in Sorted(s - {m});
    }
  }

  lemma SortedAppend(s: set<Stamp>, t: Stamp)
    requires forall x :: x in s ==> x < t
    ensures Sorted(s + {t}) == Sorted(s) + [t]
  {
    assert Newest(s + {t}) == t;
    assert s + {t} - {t} == s;
  }

  lemma {:induction false} SortedDropOldest(s: set<Stamp>)
    requires s != {}
    ensures Sorted(s)[0] in s && Sorted(s - {Sorted(s)[0]}) == Sorted(s)[1..]
    decreases |s|
  {
    hide Newest;
    var m := Newest(s);
    var rest := s - {m};
    if rest != {} {
      SortedDropOldest(rest);
      var low := Sorted(rest)[0];
      NewestIs(s - {low}, m);
      assert s - {low} - {m} == rest - {low};
      assert (Sorted(rest) + [m])[1..] == Sorted(rest)[1..] + [m];
    }
  }

  datatype State = State(current: seq<Entry>, archives: map<Stamp, seq<Entry>>, eventCount: int, maxEvents: int)

  /** Archive contents in the given order of names. */
  function Flatten(archives: map<Stamp, seq<Entry>>, names: seq<Stamp>): seq<Entry>
    requires forall i :: 0 <= i < |names| ==> names[i] in archives
  {
    if names == [] then []
    else
      var n := |names| - 1;
      Flatten(archives, names[..n]) + archives[names[n]]
  }

  /** Everything still on disk, oldest first. */
  function Kept(s: State): seq<Entry> {
    SortedIsSorted(s.archives.Keys);
    Flatten(s.archives, Sorted(s.archives.Keys)) + s.current
  }

  function DropOldest(archives: map<Stamp, seq<Entry>>, n: nat): map<Stamp, seq<Entry>>
    requires n <= |archives|
    ensures |DropOldest(archives, n)| == |archives| - n
    ensures DropOldest(archives, n).Keys <= archives.Keys
  {
    if n == 0 then archives
    else
      var rest := DropOldest(archives, n - 1);
      SortedIsSorted(rest.Keys);
      RemoveOne(rest, Sorted(rest.Keys)[0]);
      rest - {Sorted(rest.Keys)[0]}
  }

  lemma RemoveOne(m: map<Stamp, seq<Entry>>, k: Stamp)
    requires k in m
    ensures |m - {k}| == |m| - 1
  {
    assert (m - {k}).Keys == m.Keys - {k};
  }

  lemma DropNone(archives: map<Stamp, seq<Entry>>)
    ensures DropOldest(archives, 0) == archives
  {}

  lemma DropStep(archives: map<Stamp, seq<Entry>>, n: nat)
    requires n < |archives|
    ensures var rest := DropOldest(archives, n); var names := Sorted(rest.Keys);
            |rest| > 0 && |names| == |rest| && names[0] in rest
            && DropOldest(archives, n + 1) == rest - {names[0]} && Sorted((rest - {names[0]}).Keys) == names[1..]
  {
    hide Sorted;
    var rest := DropOldest(archives, n);
    assert rest.Keys != {};
    SortedDropOldest(rest.Keys);
    assert (rest - {Sorted(rest.Keys)[0]}).Keys == rest.Keys - {Sorted(rest.Keys)[0]};
  }

  function Clean(archives: map<Stamp, seq<Entry>>): map<Stamp, seq<Entry>> {
    if |archives| <= KEPT_ARCHIVES then archives else DropOldest(archives, |archives| - KEPT_ARCHIVES)
  }

  /** Rename the current file to the archive of this second, start a new one, clean up. */
  function Rotate(s: State, now: Stamp): State {
    s.(current := [], archives := Clean(s.archives[now := s.current]), eventCount := 0)
  }

  predicate MustRotate(s: State, tooBig: bool) { s.eventCount >= s.maxEvents || tooBig }

  /** Rotation comes first; an entry that cannot be written is lost and not counted. */
  function Write(s: State, e: Entry, tooBig: bool, renameOk: bool, writeOk: bool, now: Stamp): State {
    var s1 := if MustRotate(s, tooBig) && renameOk then Rotate(s, now) else s;
    if !writeOk then s1 else s1.(current := s1.current + [e], eventCount := s1.eventCount + 1)
  }

  class Logger {
    var current: seq<Entry>
    var archives: map<Stamp, seq<Entry>>
    var eventCount: int
    const maxEvents: int

    ghost function View(): State
      reads this
    {
      State(current, archives, eventCount, maxEvents)
    }

    /** Opening counts the entries already in the file. */
    constructor (existing: seq<Entry>, archives: map<Stamp, seq<Entry>>, maxEvents: int)
      ensures View() == State(existing, archives, |existing|, maxEvents)
    {
      current, this.archives, eventCount := existing, archives, |existing|;
      this.maxEvents := maxEvents;
    }

    method CleanOldArchives()
      modifies this`archives
      ensures archives == Clean(old(archives))
    {
      hide Sorted, DropOldest;
      if |archives| <= KEPT_ARCHIVES { return; }
      var matches := Sorted(archives.Keys);
      var i := 0;
      DropNone(archives);
      while i < |matches| - KEPT_ARCHIVES
        invariant 0 <= i <= |matches| - KEPT_ARCHIVES
        invariant archives == DropOldest(old(archives), i)
        invariant matches[i..] == Sorted(archives.Keys)
      {
        DropStep(old(archives), i);
        assert matches[i] == matches[i..][0] && matches[i + 1..] == matches[i..][1..];
        archives := archives - {matches[i]};
        i := i + 1;
      }
    }

    method RotateFile(now: Stamp)
      modifies this
      ensures View() == Rotate(old(View()), now)
    {
      archives := archives[now := current];
      current := [];
      eventCount := 0;
      CleanOldArchives();
    }

    method WriteEntry(e: Entry, tooBig: bool, renameOk: bool, writeOk: bool, now: Stamp) returns (ok: bool)
      modifies this
      ensures View() == Write(old(View()), e, tooBig, renameOk, writeOk, now) && ok == writeOk
    {
      if eventCount >= maxEvents || tooBig {
        if renameOk { RotateFile(now); }
      }
      if !writeOk { return false; }
      current := current + [e];
      eventCount := eventCount + 1;
      return true;
    }

    /** The newest n entries of the current file, oldest first. */
    method Recent(n: int) returns (entries: seq<Entry>)
      ensures n <= 0 ==> entries == []
      ensures n > 0 ==> |entries| == (if n < |current| then n else |current|)
      ensures entries == current[|current| - |entries|..]
    {
      if n <= 0 { return []; }
      entries := current;
      if |entries| > n { entries := entries[|entries| - n..]; }
    }
  }
}
