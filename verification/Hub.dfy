/** The SSE hub and its connection limiter: two objects that count the same clients. */
module Hub {
  import opened Common

  type Msg = seq<bv8>

  const DEFAULT_MAX_PER_IP := 10
  const DEFAULT_MAX_TOTAL := 1000
  const BUFFER_SIZE := 64

  // ---- the limiter ----

  datatype Limits = Limits(perIP: map<string, int>, total: int, maxPerIP: int, maxTotal: int)

  predicate CanConnect(l: Limits, ip: string) {
    l.total < l.maxTotal && Count(l.perIP, ip) < l.maxPerIP
  }

  function Add(l: Limits, ip: string): (Limits, bool) {
    if CanConnect(l, ip) then (l.(perIP := l.perIP[ip := Count(l.perIP, ip) + 1], total := l.total + 1), true)
    else (l, false)
  }

  function Remove(l: Limits, ip: string): Limits {
    var n := Count(l.perIP, ip);
    if n <= 0 then l
    else l.(perIP := if n == 1 then l.perIP - {ip} else l.perIP[ip := n - 1], total := l.total - 1)
  }

  class ConnectionLimiter {
    var perIPConnections: map<string, int>
    var totalConnections: int
    const maxPerIP: int
    const maxTotal: int

    ghost function View(): Limits
      reads this
    {
      Limits(perIPConnections, totalConnections, maxPerIP, maxTotal)
    }

    constructor (maxPerIP: int, maxTotal: int)
      ensures View() == Limits(map[], 0, if maxPerIP > 0 then maxPerIP else 10, if maxTotal > 0 then maxTotal else 1000)
    {
      this.maxPerIP := if maxPerIP <= 0 then DEFAULT_MAX_PER_IP else maxPerIP;
      this.maxTotal := if maxTotal <= 0 then DEFAULT_MAX_TOTAL else maxTotal;
      perIPConnections, totalConnections := map[], 0;
    }

    method CanConnectNow(ip: string) returns (ok: bool)
      ensures ok == CanConnect(View(), ip)
    {
      if totalConnections >= maxTotal { return false; }
      if Count(perIPConnections, ip) >= maxPerIP { return false; }
      return true;
    }

    method AddConnection(ip: string) returns (ok: bool)
      modifies this
      ensures (View(), ok) == Add(old(View()), ip)
    {
      if totalConnections >= maxTotal { return false; }
      if Count(perIPConnections, ip) >= maxPerIP { return false; }
      perIPConnections := perIPConnections[ip := Count(perIPConnections, ip) + 1];
      totalConnections := totalConnections + 1;
      return true;
    }

    method RemoveConnection(ip: string)
      modifies this
      ensures View() == Remove(old(View()), ip)
    {
      var count := Count(perIPConnections, ip);
      if count > 0 {
        if count == 1 {
          perIPConnections := perIPConnections - {ip};
        } else {
          perIPConnections := perIPConnections[ip := count - 1];
        }
        totalConnections := totalConnections - 1;
      }
    }
  }

  // ---- the hub ----

  /** A subscribed client: its address, the messages waiting in its channel, and those it has read. */
  datatype Client = Client(ip: string, queue: seq<Msg>, received: seq<Msg>)

  datatype State<!Id> = State(clients: map<Id, Client>, limiter: Limits)

  function Subscribed<Id>(st: State<Id>, id: Id, ip: string): (State<Id>, bool) {
    var (l, ok) := Add(st.limiter, ip);
    if ok then (State(st.clients[id := Client(ip, [], [])], l), true) else (st, false)
  }

  function Unsubscribed<Id>(st: State<Id>, id: Id): State<Id> {
    if id in st.clients then State(st.clients - {id}, Remove(st.limiter, st.clients[id].ip)) else st
  }

  /** A full channel drops the message. */
  function Offer(c: Client, m: Msg): Client {
    if |c.queue| < BUFFER_SIZE then c.(queue := c.queue + [m]) else c
  }

  function Take(c: Client): Client {
    if c.queue == [] then c else c.(queue := c.queue[1..], received := c.received + [c.queue[0]])
  }

  function Broadcasted<Id>(st: State<Id>, m: Msg): State<Id> {
    st.(clients := map id | id in st.clients :: Offer(st.clients[id], m))
  }

  function Received<Id>(st: State<Id>, id: Id): State<Id> {
    if id in st.clients then st.(clients := st.clients[id := Take(st.clients[id])]) else st
  }

  /** A client's buffered channel. */
  class Channel {
    var queue: seq<Msg>
    ghost var received: seq<Msg>

    constructor ()
      ensures queue == [] && received == []
    {
      queue, received := [], [];
    }
  }

  class Hub {
    var clients: map<Channel, string>
    const limiter: ConnectionLimiter

    ghost function View(): State<Channel>
      reads this, limiter, clients.Keys
    {
      State(map ch | ch in clients :: Client(clients[ch], ch.queue, ch.received), limiter.View())
    }

    constructor (maxPerIP: int, maxTotal: int)
      ensures View() == State(map[], Limits(map[], 0, if maxPerIP > 0 then maxPerIP else 10,
                                            if maxTotal > 0 then maxTotal else 1000))
      ensures fresh(limiter)
    {
      limiter := new ConnectionLimiter(maxPerIP, maxTotal);
      clients := map[];
    }

    method Subscribe(ip: string) returns (ch: Channel?)
      modifies this, limiter
      ensures ch != null ==> fresh(ch) && (View(), true) == Subscribed(old(View()), ch, ip)
      ensures ch == null ==> !CanConnect(old(View()).limiter, ip) && View() == old(View())
    {
      var room := limiter.CanConnectNow(ip);
      if !room { return null; }
      var added := limiter.AddConnection(ip);
      if !added { return null; }
      var c := new Channel();
      assert c !in clients;
      clients := clients[c := ip];
      assert View().clients == old(View()).clients[c := Client(ip, [], [])];
      return c;
    }

    method Unsubscribe(ch: Channel)
      modifies this, limiter
      ensures View() == Unsubscribed(old(View()), ch)
    {
      if ch in clients {
        limiter.RemoveConnection(clients[ch]);
        clients := clients - {ch};
      }
    }

    /** The clients are visited in any order. */
    method Broadcast(data: Msg)
      modifies clients.Keys
      ensures View() == Broadcasted(old(View()), data)
    {
      var todo := clients.Keys;
      while todo != {}
        invariant todo <= clients.Keys && limiter.View() == old(limiter.View())
        invariant forall ch: Channel :: ch in clients ==> ch.received == old(ch.received)
        invariant forall ch: Channel :: ch in clients ==>
            ch.queue == if ch !in todo && |old(ch.queue)| < BUFFER_SIZE then old(ch.queue) + [data] else old(ch.queue)
        decreases todo
      {
        var ch :| ch in todo;
        todo := todo - {ch};
        if |ch.queue| < BUFFER_SIZE { ch.queue := ch.queue + [data]; }
      }
    }
  }
}
