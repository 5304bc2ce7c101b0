/** Heartbeat events are the compressed stream of poll results. */
module Heartbeat {
  import opened Ring

  /** A synthetic audit entry: the agent came online or went offline. */
  datatype Entry = Entry(machine: string, online: bool)

  datatype Poll = Poll(id: string, ok: bool)

  /** Last known state per agent, here and in the store, and every entry emitted so far. */
  datatype State = State(online: map<string, bool>, stored: map<string, bool>, emitted: seq<Entry>)

  function Init(ids: set<string>): State {
    State(map id | id in ids :: false, map id | id in ids :: false, [])
  }

  function WasOnline(online: map<string, bool>, id: string): bool { id in online && online[id] }

  function Transition(s: State, p: Poll): State {
    State(s.online[p.id := p.ok],
          if p.id in s.stored then s.stored[p.id := p.ok] else s.stored,
          if WasOnline(s.online, p.id) == p.ok then s.emitted else s.emitted + [Entry(p.id, p.ok)])
  }

  function Run(s: State, ps: seq<Poll>): State {
    if ps == [] then s else Transition(Run(s, ps[..|ps| - 1]), ps[|ps| - 1])
  }

  class Heartbeat {
    var online: map<string, bool>
    const store: Store<Entry>
    ghost var emitted: seq<Entry>

    ghost predicate Valid()
      reads this, store, store.events
    {
      store.Valid() && store.Contents() == LastN(emitted, RING_SIZE)
    }

    ghost function View(): State
      reads this, store
    {
      State(online, store.agents, emitted)
    }

    constructor (ids: set<string>, store: Store<Entry>)
      requires store.Valid() && store.Contents() == [] && store.agents == map id | id in ids :: false
      ensures Valid() && View() == Init(ids) && this.store == store
    {
      online := map id | id in ids :: false;
      this.store := store;
      emitted := [];
    }

    /** The ring keeps the newest 200 of the emitted entries. */
    method Observe(id: string, nowOnline: bool)
      requires Valid()
      modifies this`online, this`emitted, store, store.events
      ensures Valid() && View() == Transition(old(View()), Poll(id, nowOnline))
      ensures store.events == old(store.events)
    {
      var wasOnline := if id in online then online[id] else false;
      online := online[id := nowOnline];
      store.SetAgentState(id, nowOnline);
      assert store.Contents() == old(store.Contents());
      if wasOnline == nowOnline { return; }
      store.Append(Entry(id, nowOnline));
      RingStep(emitted, Entry(id, nowOnline));
      emitted := emitted + [Entry(id, nowOnline)];
    }

    /** One round over the configured agents. */
    method PollAll(agents: seq<string>, answers: seq<bool>)
      requires Valid() && |answers| == |agents|
      modifies this`online, this`emitted, store, store.events
      ensures Valid()
      ensures View() == Run(old(View()), seq(|agents|, i requires 0 <= i < |agents| => Poll(agents[i], answers[i])))
    {
      ghost var ps := seq(|agents|, i requires 0 <= i < |agents| => Poll(agents[i], answers[i]));
      var i := 0;
      while i < |agents|
        invariant 0 <= i <= |agents| && Valid() && store.events == old(store.events)
        invariant View() == Run(old(View()), ps[..i])
      {
        assert ps[..i + 1][..i] == ps[..i];
        Observe(agents[i], answers[i]);
        i := i + 1;
      }
      assert ps[..i] == ps;
    }
  }

  // ---- one agent's stream ----

  function Answers(ps: seq<Poll>, id: string): seq<bool> {
    if ps == [] then []
    else
      var n := |ps| - 1;
      Answers(ps[..n], id) + if ps[n].id == id then [ps[n].ok] else []
  }

  function Events(es: seq<Entry>, id: string): seq<bool> {
    if es == [] then []
    else
      var n := |es| - 1;
      Events(es[..n], id) + if es[n].machine == id then [es[n].online] else []
  }

  function Last(s: seq<bool>): bool { if s == [] then false else s[|s| - 1] }

  /** How often the answers change, counting from offline. */
  function Changes(answers: seq<bool>): nat {
    if answers == [] then 0
    else
      var n := |answers| - 1;
      Changes(answers[..n]) + if answers[n] != Last(answers[..n]) then 1 else 0
  }

  /** Online, offline, online, ... */
  ghost predicate Alternates(events: seq<bool>) {
    forall i :: 0 <= i < |events| ==> events[i] == (i % 2 == 0)
  }

  ghost predicate Compressed(s: State, answers: seq<bool>, id: string) {
    var events := Events(s.emitted, id);
    && Alternates(events)
    && |events| == Changes(answers)
    && Last(events) == Last(answers) == WasOnline(s.online, id)
    && (id in s.stored ==> s.stored[id] == Last(answers))
  }

  lemma EventsStep(s: State, p: Poll, id: string)
    ensures Events(Transition(s, p).emitted, id)
         == Events(s.emitted, id) + if p.id == id && WasOnline(s.online, id) != p.ok then [p.ok] else []
  {
    var e := Entry(p.id, p.ok);
    assert (s.emitted + [e])[..|s.emitted|] == s.emitted;
    assert Events(s.emitted, id) + [] == Events(s.emitted, id);
  }

  lemma OneMore(s: seq<bool>, b: bool)
    ensures Last(s + [b]) == b
    ensures Changes(s + [b]) == Changes(s) + if b != Last(s) then 1 else 0
    ensures Alternates(s) && b != Last(s) ==> Alternates(s + [b])
  {
    assert (s + [b])[..|s|] == s;
  }

  lemma ObserveCompresses(s: State, p: Poll, answers: seq<bool>, id: string)
    requires Compressed(s, answers, id)
    ensures Compressed(Transition(s, p), answers + (if p.id == id then [p.ok] else []), id)
  {
    hide Events, Changes, Last, Alternates;
    EventsStep(s, p, id);
    OneMore(answers, p.ok);
    OneMore(Events(s.emitted, id), p.ok);
    assert answers + [] == answers && Events(s.emitted, id) + [] == Events(s.emitted, id);
  }

  /** For every agent and every interleaving of polls: its events alternate starting with online, there
      is one per change of answer, and the last one is the state both tables hold. */
  lemma {:induction false} HeartbeatCompresses(ids: set<string>, ps: seq<Poll>, id: string)
    ensures Compressed(Run(Init(ids), ps), Answers(ps, id), id)
  {
    if ps != [] {
      var n := |ps| - 1;
      HeartbeatCompresses(ids, ps[..n], id);
      ObserveCompresses(Run(Init(ids), ps[..n]), ps[n], Answers(ps[..n], id), id);
    }
  }
}
