/** The warden's ring buffer against an unbounded history. */
module Ring {
  import opened Common

  const RING_SIZE := 200

  /** The last n elements, oldest first; all of them when there are fewer. */
  function LastN<E>(s: seq<E>, n: int): seq<E> {
    if n <= 0 then [] else if n >= |s| then s else s[|s| - n..]
  }

  function Reverse<E>(s: seq<E>): (r: seq<E>)
    ensures |r| == |s|
    ensures forall i :: 0 <= i < |s| ==> r[i] == s[|s| - 1 - i]
  {
    seq(|s|, i requires 0 <= i < |s| => s[|s| - 1 - i])
  }

  lemma ReverseTwice<E>(s: seq<E>)
    ensures Reverse(Reverse(s)) == s
  {}

  /** Where the i-th oldest of `count` entries sits when the next write goes to `head`. */
  function Slot(head: nat, count: nat, i: nat): (k: nat)
    requires head < RING_SIZE && i < count <= RING_SIZE
    ensures k < RING_SIZE
  {
    var x := head + RING_SIZE - count + i;
    if x >= RING_SIZE then x - RING_SIZE else x
  }

  class Store<E(0)> {
    var events: array<E>
    var head: nat
    var count: nat
    /** Agent ID to online state; only configured agents have an entry. */
    var agents: map<string, bool>

    ghost predicate Valid()
      reads this
    {
      events.Length == RING_SIZE && head < RING_SIZE && count <= RING_SIZE
    }

    /** The stored entries, oldest first. */
    ghost function Contents(): (s: seq<E>)
      requires Valid()
      reads this, events
      ensures |s| == count
    {
      seq(count, i requires 0 <= i < count reads this, events requires Valid() => events[Slot(head, count, i)])
    }

    constructor (ids: set<string>)
      ensures Valid() && fresh(events) && Contents() == []
      ensures agents == map id | id in ids :: false
    {
      events := new E[RING_SIZE];
      head, count := 0, 0;
      agents := map id | id in ids :: false;
    }

    method SetAgentState(id: string, online: bool)
      modifies this`agents
      ensures agents == if id in old(agents) then old(agents)[id := online] else old(agents)
    {
      if id in agents { agents := agents[id := online]; }
    }

    method Append(e: E)
      requires Valid()
      modifies this`head, this`count, events
      ensures Valid() && events == old(events)
      ensures Contents() == LastN(old(Contents()) + [e], RING_SIZE)
    {
      events[head] := e;
      head := (head + 1) % RING_SIZE;
      if count < RING_SIZE { count := count + 1; }
      ghost var want := LastN(old(Contents()) + [e], RING_SIZE);
      forall i | 0 <= i < count ensures Contents()[i] == want[i] {
        if i < count - 1 { assert Slot(head, count, i) != old(head); }
      }
    }

    /** The last n entries, newest first. */
    method Recent(n: int) returns (out: array<E>)
      requires Valid()
      ensures fresh(out)
      ensures out[..] == Reverse(LastN(Contents(), n))
    {
      if n <= 0 || count == 0 {
        out := new E[0];
        return;
      }
      var m := if n > count then count else n;
      out := new E[m];
      ghost var stored := Contents();
      var i := 0;
      while i < m
        invariant 0 <= i <= m
        invariant forall k :: 0 <= k < i ==> out[k] == stored[count - 1 - k]
      {
        var idx := (head - 1 - i + RING_SIZE) % RING_SIZE;
        assert idx == Slot(head, count, count - 1 - i);
        out[i] := events[idx];
        i := i + 1;
      }
    }

    /** The swap loop of SaveState. */
    static method ReverseInPlace(list: array<E>)
      modifies list
      ensures list[..] == Reverse(old(list[..]))
    {
      ghost var was := list[..];
      var i, j := 0, list.Length - 1;
      while i < j
        invariant 0 <= i <= j + 1 && i + j == list.Length - 1
        invariant forall k :: 0 <= k < i ==> list[k] == was[list.Length - 1 - k]
        invariant forall k :: j < k < list.Length ==> list[k] == was[list.Length - 1 - k]
        invariant forall k :: i <= k <= j ==> list[k] == was[k]
      {
        list[i], list[j] := list[j], list[i];
        i, j := i + 1, j - 1;
      }
    }

    /** What SaveState writes: the newest-first list, reversed in place. */
    method SaveState() returns (saved: seq<E>)
      requires Valid()
      ensures saved == Contents()
    {
      hide Reverse;
      var list := Recent(RING_SIZE);
      ghost var stored := Contents();
      ReverseInPlace(list);
      saved := list[..];
      ReverseTwice(stored);
    }

    /** LoadState appends the saved entries one by one; a missing or malformed file loads nothing. */
    method LoadState(saved: Option<seq<E>>)
      requires Valid()
      modifies this`head, this`count, events
      ensures Valid() && events == old(events)
      ensures saved.None? ==> Contents() == old(Contents())
      ensures saved.Some? ==> Contents() == LastN(old(Contents()) + saved.value, RING_SIZE)
    {
      if saved.None? { return; }
      var entries := saved.value;
      var i := 0;
      while i < |entries|
        invariant 0 <= i <= |entries| && Valid() && events == old(events)
        invariant Contents() == LastN(old(Contents()) + entries[..i], RING_SIZE)
      {
        RingStep(old(Contents()) + entries[..i], entries[i]);
        assert old(Contents()) + entries[..i + 1] == old(Contents()) + entries[..i] + [entries[i]];
        Append(entries[i]);
        i := i + 1;
      }
      assert entries[..i] == entries;
    }
  }

  /** The ring forgets nothing that a longer history would still show. */
  lemma RingStep<E>(history: seq<E>, e: E)
    ensures LastN(LastN(history, RING_SIZE) + [e], RING_SIZE) == LastN(history + [e], RING_SIZE)
  {}

  /** The ring's contents after appending a history, one entry at a time. */
  function Replay<E>(history: seq<E>): seq<E> {
    if history == [] then []
    else LastN(Replay(history[..|history| - 1]) + [history[|history| - 1]], RING_SIZE)
  }

  lemma {:induction false} ReplayIsLast200<E>(history: seq<E>)
    ensures Replay(history) == LastN(history, RING_SIZE)
  {
    if history != [] {
      var n := |history| - 1;
      ReplayIsLast200(history[..n]);
      RingStep(history[..n], history[n]);
      assert history == history[..n] + [history[n]];
    }
  }

  /** Recent(n) of the ring is the reverse of the last min(n, 200, length) entries of the history. */
  lemma RecentOfHistory<E>(history: seq<E>, n: int)
    ensures Reverse(LastN(Replay(history), n)) == Reverse(LastN(history, if n < RING_SIZE then n else RING_SIZE))
  {
    hide Replay, Reverse, LastN;
    ReplayIsLast200(history);
    LastNested(history, n);
  }

  /** Entry by entry: position k shows the k-th newest of the history, down to the 200th. */
  lemma RecentSpelledOut<E>(history: seq<E>, n: nat)
    ensures var shown := Reverse(LastN(Replay(history), n));
            && |shown| == (if n <= |history| && n <= 200 then n else if |history| <= 200 then |history| else 200)
            && forall k :: 0 <= k < |shown| ==> shown[k] == history[|history| - 1 - k]
  {
    hide Replay;
    RecentOfHistory(history, n);
  }

  lemma LastNested<E>(history: seq<E>, n: int)
    ensures LastN(LastN(history, RING_SIZE), n) == LastN(history, if n < RING_SIZE then n else RING_SIZE)
  {}

  /** Saving and loading into a fresh store gives a store that shows the same for every n. */
  method SaveAndRestore<E(0)>(s: Store<E>) returns (t: Store<E>)
    requires s.Valid()
    ensures fresh(t) && t.Valid() && s.Valid() && s.Contents() == old(s.Contents())
    ensures forall n: int :: Reverse(LastN(t.Contents(), n)) == Reverse(LastN(s.Contents(), n))
  {
    var saved := s.SaveState();
    t := new Store({});
    t.LoadState(Some(saved));
    assert [] + saved == saved;
  }
}
