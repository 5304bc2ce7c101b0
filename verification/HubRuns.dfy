/** The hub over all interleavings of subscribes, unsubscribes, broadcasts and reads. */
module HubRuns {
  import opened Common
  import opened Hub

  datatype Event = Subscribe(ip: string) | Unsubscribe(id: nat) | Broadcast(m: Msg) | Read(id: nat)

  /** Clients are numbered in order of arrival; a channel is never reused. */
  datatype System = System(hub: State<nat>, next: nat)

  function Init(maxPerIP: int, maxTotal: int): System {
    System(State(map[], Limits(map[], 0, maxPerIP, maxTotal)), 0)
  }

  function Step(s: System, e: Event): System {
    match e
    case Subscribe(ip) => System(Subscribed(s.hub, s.next, ip).0, s.next + 1)
    case Unsubscribe(id) => s.(hub := Unsubscribed(s.hub, id))
    case Broadcast(m) => s.(hub := Broadcasted(s.hub, m))
    case Read(id) => s.(hub := Received(s.hub, id))
  }

  function Run(s: System, es: seq<Event>): System {
    if es == [] then s else Step(Run(s, es[..|es| - 1]), es[|es| - 1])
  }

  // ---- the two objects agree ----

  /** The clients with an address. */
  ghost function From(clients: map<nat, Client>, ip: string): set<nat> {
    set id | id in clients && clients[id].ip == ip
  }

  ghost function Sum(m: map<string, int>): int
    decreases |m|
  {
    if m == map[] then 0
    else
      var k :| k in m;
      MapShrinks(m, k);
      m[k] + Sum(m - {k})
  }

  lemma MapShrinks(m: map<string, int>, k: string)
    requires k in m
    ensures |m - {k}| == |m| - 1
  {
    assert (m - {k}).Keys == m.Keys - {k};
  }

  lemma {:induction false} SumWithout(m: map<string, int>, k: string)
    requires k in m
    ensures Sum(m) == m[k] + Sum(m - {k})
    decreases |m|
  {
    var c :| c in m && Sum(m) == m[c] + Sum(m - {c});
    if c != k {
      MapShrinks(m, c);
      SumWithout(m - {c}, k);
      MapShrinks(m, k);
      SumWithout(m - {k}, c);
      assert m - {c} - {k} == m - {k} - {c};
    }
  }

  lemma SumUpdate(m: map<string, int>, k: string, v: int)
    ensures Sum(m[k := v]) == Sum(m) + v - Count(m, k)
  {
    SumWithout(m[k := v], k);
    assert m[k := v] - {k} == m - {k};
    if k in m { SumWithout(m, k); } else { assert m - {k} == m; }
  }

  /** Total, per-address counts and the client map tell one story, and the caps hold. */
  ghost predicate Agree(st: State<nat>) {
    var l := st.limiter;
    && l.total == |st.clients| == Sum(l.perIP)
    && l.total <= l.maxTotal
    && (forall ip :: ip in l.perIP ==> 0 < l.perIP[ip] <= l.maxPerIP)
    && (forall ip :: Count(l.perIP, ip) == |From(st.clients, ip)|)
  }

  lemma SubscribeAgrees(st: State<nat>, id: nat, ip: string)
    requires Agree(st) && id !in st.clients && CanConnect(st.limiter, ip)
    ensures Agree(Subscribed(st, id, ip).0)
  {
    hide Sum, From;
    var st' := Subscribed(st, id, ip).0;
    SumUpdate(st.limiter.perIP, ip, Count(st.limiter.perIP, ip) + 1);
    assert st'.clients.Keys == st.clients.Keys + {id};
    forall a ensures Count(st'.limiter.perIP, a) == |From(st'.clients, a)| {
      FromGrows(st.clients, id, Client(ip, [], []), a);
    }
  }

  lemma FromGrows(clients: map<nat, Client>, id: nat, c: Client, a: string)
    requires id !in clients
    ensures |From(clients[id := c], a)| == |From(clients, a)| + if a == c.ip then 1 else 0
  {
    assert From(clients[id := c], a) == if a == c.ip then From(clients, a) + {id} else From(clients, a);
  }

  lemma UnsubscribeAgrees(st: State<nat>, id: nat)
    requires Agree(st) && id in st.clients
    ensures Agree(Unsubscribed(st, id))
  {
    var st', ip := Unsubscribed(st, id), st.clients[id].ip;
    assert id in From(st.clients, ip);
    var n := Count(st.limiter.perIP, ip);
    assert n > 0;
    if n == 1 {
      SumWithout(st.limiter.perIP, ip);
    } else {
      SumUpdate(st.limiter.perIP, ip, n - 1);
    }
    assert st'.clients.Keys == st.clients.Keys - {id};
    forall a ensures Count(st'.limiter.perIP, a) == |From(st'.clients, a)| {
      assert From(st'.clients, a) == if a == ip then From(st.clients, a) - {id} else From(st.clients, a);
    }
  }

  lemma SameAddressesAgree(st: State<nat>, st': State<nat>)
    requires Agree(st) && st'.limiter == st.limiter && st'.clients.Keys == st.clients.Keys
    requires forall id :: id in st.clients ==> st'.clients[id].ip == st.clients[id].ip
    ensures Agree(st')
  {
    assert |st'.clients| == |st'.clients.Keys| == |st.clients|;
    forall a ensures Count(st'.limiter.perIP, a) == |From(st'.clients, a)| {
      assert From(st'.clients, a) == From(st.clients, a);
    }
  }

  ghost predicate Numbered(s: System) {
    forall id :: id in s.hub.clients ==> id < s.next
  }

  /** In every reachable state of hub and limiter: total = clients = sum of the per-address counts,
      each count is the number of clients of that address and is never zero, and no cap is exceeded. */
  lemma {:induction false} HubAndLimiterAgree(maxPerIP: int, maxTotal: int, es: seq<Event>)
    requires maxPerIP > 0 && maxTotal > 0
    ensures Agree(Run(Init(maxPerIP, maxTotal), es).hub) && Numbered(Run(Init(maxPerIP, maxTotal), es))
  {
    if es == [] {
      var st := Init(maxPerIP, maxTotal).hub;
      forall a ensures |From(st.clients, a)| == 0 { assert From(st.clients, a) == {}; }
    } else {
      var n := |es| - 1;
      HubAndLimiterAgree(maxPerIP, maxTotal, es[..n]);
      var s := Run(Init(maxPerIP, maxTotal), es[..n]);
      StepAgrees(s, es[n]);
    }
  }

  lemma StepAgrees(s: System, e: Event)
    requires Agree(s.hub) && Numbered(s)
    ensures Agree(Step(s, e).hub) && Numbered(Step(s, e))
  {
    hide Agree;
    match e {
      case Subscribe(ip) => if CanConnect(s.hub.limiter, ip) { SubscribeAgrees(s.hub, s.next, ip); }
      case Unsubscribe(id) => if id in s.hub.clients { UnsubscribeAgrees(s.hub, id); }
      case Broadcast(m) => SameAddressesAgree(s.hub, Broadcasted(s.hub, m));
      case Read(id) => if id in s.hub.clients { SameAddressesAgree(s.hub, Received(s.hub, id)); }
    }
  }

  /** An unsubscribe removes the client, frees its place under both caps, and leaves every other client as it
      is; for an unknown client it changes nothing. */
  lemma UnsubscribeExactly(st: State<nat>, id: nat)
    requires Agree(st)
    ensures var st' := Unsubscribed(st, id);
            && st'.clients == st.clients - {id}
            && (id !in st.clients ==> st' == st)
            && (id in st.clients ==> forall ip ::
                  Count(st'.limiter.perIP, ip)
                  == Count(st.limiter.perIP, ip) - if ip == st.clients[id].ip then 1 else 0)
            && st'.limiter.total == st.limiter.total - if id in st.clients then 1 else 0
  {
    hide Sum;
    if id in st.clients {
      assert id in From(st.clients, st.clients[id].ip);
      assert Count(st.limiter.perIP, st.clients[id].ip) > 0;
    } else {
      assert st.clients - {id} == st.clients;
    }
  }

  /** Unsubscribing twice is unsubscribing once. */
  lemma UnsubscribeTwice(st: State<nat>, id: nat)
    ensures Unsubscribed(Unsubscribed(st, id), id) == Unsubscribed(st, id)
  {}

  // ---- delivery ----

  /** The events that concern one client: broadcasts and its own reads. */
  function Own(es: seq<Event>, id: nat): seq<Event> {
    if es == [] then []
    else
      var n := |es| - 1;
      Own(es[..n], id) + if es[n].Broadcast? || es[n] == Read(id) then [es[n]] else []
  }

  /** What one of its own events does to a client. */
  function Alone1(c: Client, e: Event): Client {
    match e
    case Broadcast(m) => Offer(c, m)
    case Read(_) => Take(c)
    case _ => c
  }

  /** One client alone, fed with its own events. */
  function Alone(c: Client, own: seq<Event>): Client {
    if own == [] then c
    else
      Alone1(Alone(c, own[..|own| - 1]), own[|own| - 1])
  }

  /** Slow or fast, other clients never affect a client's stream: it is what the client would have
      seen alone. */
  lemma {:induction false} ClientsAreIndependent(s: System, es: seq<Event>, id: nat)
    requires id in s.hub.clients && id < s.next && Unsubscribe(id) !in es
    ensures id in Run(s, es).hub.clients && id < Run(s, es).next
    ensures Run(s, es).hub.clients[id] == Alone(s.hub.clients[id], Own(es, id))
  {
    hide Step, Offer, Take, Alone;
    if es != [] {
      var n := |es| - 1;
      assert es == es[..n] + [es[n]];
      ClientsAreIndependent(s, es[..n], id);
      StepOnOne(Run(s, es[..n]), es[n], id);
      AloneGrows(s.hub.clients[id], Own(es[..n], id), es[n]);
      assert Own(es[..n], id) + [] == Own(es[..n], id);
    } else {
      assert Own(es, id) == [];
      AloneGrows(s.hub.clients[id], [], Read(id));
    }
  }

  lemma StepOnOne(s: System, e: Event, id: nat)
    requires id in s.hub.clients && id < s.next && e != Unsubscribe(id)
    ensures id in Step(s, e).hub.clients && id < Step(s, e).next
    ensures Step(s, e).hub.clients[id]
         == if e.Broadcast? || e == Read(id) then Alone1(s.hub.clients[id], e) else s.hub.clients[id]
  {
    hide Offer, Take, Add, Remove;
  }

  lemma AloneGrows(c: Client, own: seq<Event>, e: Event)
    ensures Alone(c, []) == c && Alone(c, own + [e]) == Alone1(Alone(c, own), e)
  {
    assert (own + [e])[..|own|] == own;
  }

  /** What a client has got so far: read, then waiting. */
  function Stream(c: Client): seq<Msg> { c.received + c.queue }

  function Broadcasts(own: seq<Event>): seq<Msg> {
    if own == [] then []
    else
      var n := |own| - 1;
      Broadcasts(own[..n]) + if own[n].Broadcast? then [own[n].m] else []
  }

  /** Broadcasts that met a full channel. */
  function Dropped(c: Client, own: seq<Event>): nat {
    if own == [] then 0
    else
      var n := |own| - 1;
      Dropped(c, own[..n]) + if own[n].Broadcast? && |Alone(c, own[..n]).queue| >= BUFFER_SIZE then 1 else 0
  }

  /** `a` is `b` with some elements left out. */
  predicate Subsequence(a: seq<Msg>, b: seq<Msg>) {
    if b == [] then a == []
    else
      var n := |b| - 1;
      Subsequence(a, b[..n]) || (a != [] && a[|a| - 1] == b[n] && Subsequence(a[..|a| - 1], b[..n]))
  }

  lemma SubsequenceGrows(a: seq<Msg>, b: seq<Msg>, m: Msg)
    requires Subsequence(a, b)
    ensures Subsequence(a, b + [m]) && Subsequence(a + [m], b + [m])
  {
    assert (b + [m])[..|b|] == b && (a + [m])[..|a|] == a;
  }

  /** The broadcasts at which the client's channel had room. */
  function Delivered(c: Client, own: seq<Event>): seq<Msg> {
    if own == [] then []
    else
      var n := |own| - 1;
      Delivered(c, own[..n]) + if own[n].Broadcast? && |Alone(c, own[..n]).queue| < BUFFER_SIZE then [own[n].m] else []
  }

  /** A client has read, or has waiting, exactly the broadcasts that met room in its channel, in order. */
  lemma {:induction false} StreamIsDelivered(c: Client, own: seq<Event>)
    ensures Stream(Alone(c, own)) == Stream(c) + Delivered(c, own)
  {
    if own != [] {
      var n := |own| - 1;
      StreamIsDelivered(c, own[..n]);
      OneStream(Alone(c, own[..n]), own[n]);
      assert Stream(c) + Delivered(c, own[..n]) + [] == Stream(c) + Delivered(c, own[..n]);
    }
  }

  lemma OneStream(c: Client, e: Event)
    ensures Stream(Alone1(c, e)) == Stream(c) + if e.Broadcast? && |c.queue| < BUFFER_SIZE then [e.m] else []
    ensures |c.queue| <= BUFFER_SIZE ==> |Alone1(c, e).queue| <= BUFFER_SIZE
  {
    assert e.Read? && c.queue != [] ==> Stream(Take(c)) == Stream(c);
    assert e.Broadcast? ==> Stream(c.(queue := c.queue + [e.m])) == Stream(c) + [e.m];
  }

  lemma {:induction false} DeliveredIsSubsequence(c: Client, own: seq<Event>)
    ensures Subsequence(Delivered(c, own), Broadcasts(own))
    ensures |Delivered(c, own)| + Dropped(c, own) == |Broadcasts(own)|
  {
    hide Alone;
    if own != [] {
      var n := |own| - 1;
      DeliveredIsSubsequence(c, own[..n]);
      if own[n].Broadcast? {
        SubsequenceGrows(Delivered(c, own[..n]), Broadcasts(own[..n]), own[n].m);
      }
      assert Delivered(c, own[..n]) + [] == Delivered(c, own[..n]) && Broadcasts(own[..n]) + [] == Broadcasts(own[..n]);
    }
  }

  lemma {:induction false} QueueIsBounded(c: Client, own: seq<Event>)
    requires |c.queue| <= BUFFER_SIZE
    ensures |Alone(c, own).queue| <= BUFFER_SIZE
  {
    if own != [] {
      var n := |own| - 1;
      QueueIsBounded(c, own[..n]);
      OneStream(Alone(c, own[..n]), own[n]);
    }
  }

  /** From its subscription on, a client gets exactly the broadcasts that met room in its channel: an
      ordered subsequence of all of them, short by those that met 64 waiting messages. */
  lemma DeliveryIsExact(ip: string, own: seq<Event>)
    ensures var c := Alone(Client(ip, [], []), own);
            && Stream(c) == Delivered(Client(ip, [], []), own)
            && Subsequence(Stream(c), Broadcasts(own))
            && |Stream(c)| + Dropped(Client(ip, [], []), own) == |Broadcasts(own)|
            && |c.queue| <= BUFFER_SIZE
  {
    hide Alone, Delivered, Dropped, Broadcasts, Subsequence;
    var c := Client(ip, [], []);
    StreamIsDelivered(c, own);
    assert Stream(c) + Delivered(c, own) == Delivered(c, own);
    DeliveredIsSubsequence(c, own);
    QueueIsBounded(c, own);
  }

  lemma {:induction false} ShorterSubsequence(a: seq<Msg>, b: seq<Msg>)
    requires Subsequence(a, b)
    ensures |a| <= |b| && (|a| == |b| ==> a == b)
    decreases |b|
  {
    if b != [] {
      var n := |b| - 1;
      if Subsequence(a, b[..n]) {
        ShorterSubsequence(a, b[..n]);
      } else {
        ShorterSubsequence(a[..|a| - 1], b[..n]);
        assert a == a[..|a| - 1] + [a[|a| - 1]] && b == b[..n] + [b[n]];
      }
    }
  }

  /** A client gets every broadcast exactly when its channel was never full at one. */
  lemma NothingLostIffNeverFull(ip: string, own: seq<Event>)
    ensures Stream(Alone(Client(ip, [], []), own)) == Broadcasts(own) <==> Dropped(Client(ip, [], []), own) == 0
  {
    hide Alone, Delivered, Dropped, Broadcasts, Subsequence;
    DeliveryIsExact(ip, own);
    ShorterSubsequence(Stream(Alone(Client(ip, [], []), own)), Broadcasts(own));
  }

  /** A successful subscriber, in any surrounding traffic: its stream is the broadcasts since it
      subscribed that met room in its channel, no others and in order. */
  lemma SubscriberIsServed(s: System, ip: string, es: seq<Event>)
    requires CanConnect(s.hub.limiter, ip) && Unsubscribe(s.next) !in es
    ensures var s' := Run(Step(s, Subscribe(ip)), es);
            var own := Own(es, s.next);
            && s.next in s'.hub.clients
            && Stream(s'.hub.clients[s.next]) == Delivered(Client(ip, [], []), own)
            && Subsequence(Stream(s'.hub.clients[s.next]), Broadcasts(own))
            && |Stream(s'.hub.clients[s.next])| + Dropped(Client(ip, [], []), own) == |Broadcasts(own)|
  {
    hide Alone, Delivered, Dropped, Broadcasts, Subsequence, Own;
    ClientsAreIndependent(Step(s, Subscribe(ip)), es, s.next);
    DeliveryIsExact(ip, Own(es, s.next));
  }

  // ---- who is admitted ----

  lemma {:induction false} LimitsAreFixed(maxPerIP: int, maxTotal: int, es: seq<Event>)
    ensures var l := Run(Init(maxPerIP, maxTotal), es).hub.limiter; l.maxPerIP == maxPerIP && l.maxTotal == maxTotal
  {
    if es != [] { LimitsAreFixed(maxPerIP, maxTotal, es[..|es| - 1]); }
  }

  /** In every reachable state a client is admitted exactly while fewer clients than the total cap are
      connected, and fewer from its address than the cap per address. */
  lemma AdmittedExactly(maxPerIP: int, maxTotal: int, es: seq<Event>, ip: string)
    requires maxPerIP > 0 && maxTotal > 0
    ensures var s := Run(Init(maxPerIP, maxTotal), es);
            s.next in Step(s, Subscribe(ip)).hub.clients <==>
              && |s.hub.clients| < maxTotal
              && |set id | id in s.hub.clients && s.hub.clients[id].ip == ip| < maxPerIP
  {
    hide Run, Sum;
    HubAndLimiterAgree(maxPerIP, maxTotal, es);
    LimitsAreFixed(maxPerIP, maxTotal, es);
    var s := Run(Init(maxPerIP, maxTotal), es);
    assert From(s.hub.clients, ip) == set id | id in s.hub.clients && s.hub.clients[id].ip == ip;
    assert Count(s.hub.limiter.perIP, ip) == |From(s.hub.clients, ip)|;
  }

  /** What a broadcast and a read do to every client: a queue with fewer than 64 messages takes the new one at
      its end, a full one drops it; a read takes from the front. */
  lemma QueuesAreFifo(s: System, m: Msg, id: nat)
    requires id in s.hub.clients
    ensures var c, b, r := s.hub.clients[id], Step(s, Broadcast(m)).hub.clients, Step(s, Read(id)).hub.clients;
            && b.Keys == s.hub.clients.Keys == r.Keys
            && b[id] == (if |c.queue| < 64 then Client(c.ip, c.queue + [m], c.received) else c)
            && r[id] == if c.queue == [] then c else Client(c.ip, c.queue[1..], c.received + [c.queue[0]])
  {}
}
