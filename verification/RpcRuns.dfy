/** Whole runs of clients, network and server: each call is executed at most once. */
module RpcRuns {
  import opened Bytes
  import opened Counting
  import opened Rpc

  datatype Result = Answered(reply: Reply) | NoAnswer

  /** A client: every call it has made, the results it has, and whether one call is in flight. */
  datatype Client = Client(id: nat, calls: seq<Request>, got: seq<Result>, waiting: bool)
  datatype Exec = Exec(req: Request, reply: Reply)

  /** Packets once sent never leave the two sets: they may arrive late, twice, in any order or not at all. */
  datatype World = World(clients: seq<Client>, requests: set<Request>, replies: set<Reply>, server: Server,
                         log: seq<Exec>)

  datatype Step =
    | Call(c: nat, proc: nat, args: seq<byte>)
    | GiveUp(c: nat)                       // every retry timed out
    | Deliver(c: nat, reply: Reply)        // a reply for the call in flight
    | Arrive(req: Request)                 // a request, first copy or not

  predicate Enabled(w: World, a: Step) {
    match a
    case Call(c, proc, args) =>
      c < |w.clients| && !w.clients[c].waiting && |args| <= MAXPAYLOAD && |w.clients[c].calls| + 1 < WORD
    case GiveUp(c) => c < |w.clients| && w.clients[c].waiting
    case Deliver(c, r) =>
      c < |w.clients| && w.clients[c].waiting && r in w.replies && r.client == w.clients[c].id
        && r.seqno == |w.clients[c].calls|
    case Arrive(req) => req in w.requests && ServerOk(w.server) && !w.server.halted
  }

  function Do(w: World, a: Step): World
    requires Enabled(w, a)
  {
    match a
    case Call(c, proc, args) =>
      var k := w.clients[c];
      var req := Request(k.id, |k.calls| + 1, proc, args);
      w.(clients := w.clients[c := k.(calls := k.calls + [req], waiting := true)], requests := w.requests + {req})
    case GiveUp(c) => Resolve(w, c, NoAnswer)
    case Deliver(c, r) => Resolve(w, c, Answered(r))
    case Arrive(req) =>
      match Serve(w.server, req)
      case Again(r) => w.(replies := w.replies + {r})
      case Ghost => w
      case Executed(sv, r) => w.(server := sv, replies := w.replies + {r}, log := w.log + [Exec(req, r)])
  }

  function Resolve(w: World, c: nat, result: Result): World
    requires c < |w.clients|
  {
    var k := w.clients[c];
    w.(clients := w.clients[c := k.(got := k.got + [result], waiting := false)])
  }

  predicate Init(w: World) {
    && (forall c | 0 <= c < |w.clients| :: w.clients[c].calls == [] && w.clients[c].got == [] && !w.clients[c].waiting)
    && (forall c, d | 0 <= c < d < |w.clients| :: w.clients[c].id != w.clients[d].id)
    && w.requests == {} && w.replies == {} && w.log == []
    && w.server == Server(seq(SLOTS, _ => Free), 0, 0, false)
  }

  // ---- the invariant --------------------------------------------------------------------------

  ghost predicate ClientsOk(w: World) {
    && (forall c, d | 0 <= c < d < |w.clients| :: w.clients[c].id != w.clients[d].id)
    && (forall c | 0 <= c < |w.clients| ::
          var k := w.clients[c]; |k.calls| == |k.got| + if k.waiting then 1 else 0)
    && (forall c, s | 0 <= c < |w.clients| && 0 <= s < |w.clients[c].calls| ::
          var r := w.clients[c].calls[s]; r.client == w.clients[c].id && r.seqno == s + 1)
  }

  predicate Made(w: World, r: Request, c: nat, s: nat) {
    c < |w.clients| && s < |w.clients[c].calls| && w.clients[c].calls[s] == r
  }

  /** What is on the network was called by someone. */
  ghost predicate RequestsOk(w: World) {
    forall r | r in w.requests :: exists c: nat, s: nat :: Made(w, r, c, s)
  }

  predicate Executes(log: seq<Exec>, r: Reply, k: nat) { k < |log| && log[k].reply == r }

  /** Every reply on the network came from an execution. */
  ghost predicate RepliesOk(w: World) {
    forall r | r in w.replies :: exists k: nat :: Executes(w.log, r, k)
  }

  /** What the executed inc calls add up to. */
  function Total(log: seq<Exec>): nat {
    if log == [] then 0 else Total(log[..|log| - 1]) + Amount(log[|log| - 1].req.proc, log[|log| - 1].req.args)
  }

  /** An execution ran the handler on a call, with the counter the calls before it left. */
  predicate Genuine(w: World, k: nat)
    requires k < |w.log|
  {
    var e, a := w.log[k], Handler(w.log[k].req.proc, w.log[k].req.args, Total(w.log[..k]) % WORD);
    e.req in w.requests && e.reply == Reply(e.req.client, e.req.seqno, a.status, a.result)
  }

  ghost predicate LogOk(w: World) {
    && (forall k | 0 <= k < |w.log| :: Genuine(w, k))
    && (forall i, j | 0 <= i < j < |w.log| && w.log[i].req.client == w.log[j].req.client ::
          w.log[i].req.seqno < w.log[j].req.seqno)
    && ServerOk(w.server) && w.server.value == Total(w.log) % WORD
  }

  /** The cache has one slot per client served, with the reply of its last execution. */
  ghost predicate CacheOk(w: World) {
    && ServerOk(w.server)
    && (forall i, j | 0 <= i < j < SLOTS && w.server.cache[i].Last? && w.server.cache[j].Last? ::
          w.server.cache[i].client != w.server.cache[j].client)
    && (forall i | 0 <= i < SLOTS && w.server.cache[i].Last? :: SlotOk(w, i))
    && (forall k | 0 <= k < |w.log| :: HasSlot(w.server.cache, w.log[k].req.client))
  }

  ghost predicate HasSlot(cache: seq<Slot>, client: nat) { exists i: nat :: Holds(cache, i, client) }

  ghost predicate SlotOk(w: World, i: nat)
    requires i < |w.server.cache| && w.server.cache[i].Last?
  {
    var e := w.server.cache[i];
    && (exists k: nat :: Executes(w.log, e.reply, k) && w.log[k].req.client == e.client)
    && (forall k | 0 <= k < |w.log| && w.log[k].req.client == e.client :: w.log[k].req.seqno <= e.reply.seqno)
  }

  ghost predicate ResultOk(w: World, c: nat, s: nat)
    requires c < |w.clients| && s < |w.clients[c].got| <= |w.clients[c].calls|
  {
    w.clients[c].got[s].Answered? ==>
      exists k: nat :: Executes(w.log, w.clients[c].got[s].reply, k) && w.log[k].req == w.clients[c].calls[s]
  }

  ghost predicate ResultsOk(w: World)
    requires ClientsOk(w)
  {
    forall c, s | 0 <= c < |w.clients| && 0 <= s < |w.clients[c].got| :: ResultOk(w, c, s)
  }

  ghost predicate Inv(w: World) {
    ClientsOk(w) && RequestsOk(w) && RepliesOk(w) && LogOk(w) && CacheOk(w) && ResultsOk(w)
  }

  lemma InvInit(w: World)
    requires Init(w)
    ensures Inv(w)
  {
  }

  /** A request on the network is determined by who sent it and its number. */
  lemma OneRequest(w: World, r: Request, q: Request)
    requires ClientsOk(w) && RequestsOk(w) && r in w.requests && q in w.requests
    requires r.client == q.client && r.seqno == q.seqno
    ensures r == q
  {
    var c: nat, s: nat :| Made(w, r, c, s);
    var d: nat, t: nat :| Made(w, q, d, t);
    assert c == d;
  }

  // ---- steps that do not touch the server ---------------------------------------------------

  lemma CallStep(w: World, c: nat, proc: nat, args: seq<byte>)
    requires Inv(w) && Enabled(w, Call(c, proc, args))
    ensures Inv(Do(w, Call(c, proc, args)))
  {
    var w' := Do(w, Call(c, proc, args));
    var k := w.clients[c];
    var req := Request(k.id, |k.calls| + 1, proc, args);
    forall r | r in w'.requests ensures exists d: nat, s: nat :: Made(w', r, d, s) {
      if r == req {
        assert Made(w', r, c, |k.calls|);
      } else {
        var d: nat, s: nat :| Made(w, r, d, s);
        assert Made(w', r, d, s);
      }
    }
    hide Handler, Total, Made, Executes, Holds;
    assert ClientsOk(w');
    SameServer(w, w');
    forall d: nat, s: nat | d < |w'.clients| && s < |w'.clients[d].got| ensures ResultOk(w', d, s) {
      assert ResultOk(w, d, s);
    }
  }

  /** The server's side of the invariant survives when requests are only added. */
  lemma SameServer(w: World, w': World)
    requires w'.server == w.server && w'.log == w.log && w'.replies == w.replies && w.requests <= w'.requests
    requires RepliesOk(w) && LogOk(w) && CacheOk(w)
    ensures RepliesOk(w') && LogOk(w') && CacheOk(w')
  {
    hide Handler, Total, Executes, HasSlot;
    forall k: nat | k < |w'.log| ensures Genuine(w', k) { assert Genuine(w, k); }
    forall i: nat | i < SLOTS && w'.server.cache[i].Last? ensures SlotOk(w', i) { assert SlotOk(w, i); }
  }

  lemma ResolveStep(w: World, c: nat, result: Result)
    requires Inv(w) && c < |w.clients| && w.clients[c].waiting
    requires result.Answered? ==>
               result.reply in w.replies && result.reply.client == w.clients[c].id
               && result.reply.seqno == |w.clients[c].calls|
    ensures Inv(Resolve(w, c, result))
  {
    hide Handler, Total, Holds;
    var w' := Resolve(w, c, result);
    var k := w.clients[c];
    forall r | r in w'.requests ensures exists d: nat, s: nat :: Made(w', r, d, s) {
      var d: nat, s: nat :| Made(w, r, d, s);
      assert Made(w', r, d, s);
    }
    SameServer(w, w');
    forall d: nat, s: nat | d < |w'.clients| && s < |w'.clients[d].got| ensures ResultOk(w', d, s) {
      if d == c && s == |k.got| {
        if result.Answered? { TrueReply(w, c, result.reply); }
      } else {
        assert ResultOk(w, d, s);
      }
    }
  }

  /** A reply that matches the call in flight came from executing that call. */
  lemma TrueReply(w: World, c: nat, r: Reply)
    requires Inv(w) && c < |w.clients| && w.clients[c].waiting && r in w.replies
    requires r.client == w.clients[c].id && r.seqno == |w.clients[c].calls|
    ensures exists k: nat :: Executes(w.log, r, k) && w.log[k].req == w.clients[c].calls[r.seqno - 1]
  {
    hide Handler, Total, Holds;
    var k: nat :| Executes(w.log, r, k);
    var q := w.log[k].req;
    assert Genuine(w, k);
    var d: nat, s: nat :| Made(w, q, d, s);
    assert d == c && s == r.seqno - 1;
  }

  // ---- serving a request ----------------------------------------------------------------------

  /** The k-th client's id. */
  function Ids(clients: seq<Client>): seq<nat> { seq(|clients|, c requires 0 <= c < |clients| => clients[c].id) }

  /** With at most as many clients as slots, a client without one finds a free one. */
  lemma RoomLeft(w: World, client: nat)
    requires ClientsOk(w) && RequestsOk(w) && CacheOk(w) && LogOk(w) && |w.clients| <= SLOTS
    requires client in Elements(Ids(w.clients)) && (forall i | 0 <= i < SLOTS :: !Holds(w.server.cache, i, client))
    ensures exists i :: 0 <= i < SLOTS && w.server.cache[i].Free?
  {
    hide Handler, Total, Executes;
    if forall i | 0 <= i < SLOTS :: w.server.cache[i].Last? {
      var served := seq(SLOTS, i requires 0 <= i < SLOTS => w.server.cache[i].client);
      var ids := Elements(Ids(w.clients));
      Counted(served);
      Counted(Ids(w.clients));
      forall x | x in Elements(served) ensures x in ids - {client} {
        var i: nat :| i < SLOTS && served[i] == x;
        assert !Holds(w.server.cache, i, client);
        ServedKnown(w, i);
      }
      SubsetCount(Elements(served), ids - {client});
      assert false;
    }
  }

  lemma ServedKnown(w: World, i: nat)
    requires ClientsOk(w) && RequestsOk(w) && CacheOk(w) && LogOk(w) && i < SLOTS && w.server.cache[i].Last?
    ensures w.server.cache[i].client in Elements(Ids(w.clients))
  {
    hide Handler, Total;
    assert SlotOk(w, i);
    var k: nat :| Executes(w.log, w.server.cache[i].reply, k) && w.log[k].req.client == w.server.cache[i].client;
    assert Genuine(w, k);
    Known(w, w.log[k].req);
  }

  lemma Known(w: World, r: Request)
    requires ClientsOk(w) && RequestsOk(w) && r in w.requests
    ensures r.client in Elements(Ids(w.clients))
  {
    var c: nat, s: nat :| Made(w, r, c, s);
    assert Ids(w.clients)[c] == r.client;
  }

  /** An execution happens only for a number above all this client's executed ones, and no slot is stolen. */
  lemma FreshExec(w: World, req: Request)
    requires Inv(w) && |w.clients| <= SLOTS && req in w.requests && Serve(w.server, req).Executed?
    ensures forall k | 0 <= k < |w.log| && w.log[k].req.client == req.client :: w.log[k].req.seqno < req.seqno
    ensures var out, i := Serve(w.server, req), Find(w.server.cache, req.client, 0);
      var at := if i < SLOTS then i else FindFree(w.server.cache, 0);
      && at < SLOTS && out.server.cache == w.server.cache[at := Last(req.client, out.reply)]
      && (w.server.cache[at].Free? || w.server.cache[at].client == req.client)
      && forall j | 0 <= j < SLOTS && j != at :: !Holds(w.server.cache, j, req.client)
  {
    hide Handler, Total, Executes;
    var i := Find(w.server.cache, req.client, 0);
    if i < SLOTS {
      assert SlotOk(w, i);
    } else {
      Known(w, req);
      RoomLeft(w, req.client);
      forall k: nat | k < |w.log| ensures w.log[k].req.client != req.client {
        assert HasSlot(w.server.cache, w.log[k].req.client);
        var j: nat :| Holds(w.server.cache, j, w.log[k].req.client);
      }
    }
  }

  /** Serving adds its amount, modulo a word, whatever the call. */
  lemma HandlerValue(proc: nat, args: seq<byte>, value: nat)
    requires value < WORD
    ensures Handler(proc, args, value).value == (value + Amount(proc, args)) % WORD
  {
  }

  lemma ExecutesMore(log: seq<Exec>, e: Exec, r: Reply)
    requires exists k: nat :: Executes(log, r, k)
    ensures exists k: nat :: Executes(log + [e], r, k)
  {
    var k: nat :| Executes(log, r, k);
    assert Executes(log + [e], r, k);
  }

  lemma ExecLog(w: World, req: Request)
    requires Inv(w) && |w.clients| <= SLOTS && Enabled(w, Arrive(req)) && Serve(w.server, req).Executed?
    ensures LogOk(Do(w, Arrive(req)))
  {
    hide Total, Executes, Holds, Handler, FindFree, Find;
    var w', out := Do(w, Arrive(req)), Serve(w.server, req);
    var n := |w.log|;
    FreshExec(w, req);
    forall k: nat | k < |w'.log| ensures Genuine(w', k) {
      if k < n {
        assert Genuine(w, k);
        assert w'.log[..k] == w.log[..k];
      } else {
        assert w'.log[..k] == w.log;
      }
    }
    HandlerValue(req.proc, req.args, w.server.value);
    TotalStep(w.log, Exec(req, out.reply));
  }

  lemma TotalStep(log: seq<Exec>, e: Exec)
    ensures Total(log + [e]) == Total(log) + Amount(e.req.proc, e.req.args)
    ensures Total(log + [e]) % WORD == (Total(log) % WORD + Amount(e.req.proc, e.req.args)) % WORD
  {
    assert (log + [e])[..|log|] == log;
  }

  lemma ExecCache(w: World, req: Request)
    requires Inv(w) && |w.clients| <= SLOTS && Enabled(w, Arrive(req)) && Serve(w.server, req).Executed?
    ensures CacheOk(Do(w, Arrive(req)))
  {
    hide Total, Handler, FindFree, Find, Serve, Genuine, RequestsOk, RepliesOk, ResultsOk, ClientsOk, LogOk;
    var w', out := Do(w, Arrive(req)), Serve(w.server, req);
    var i := Find(w.server.cache, req.client, 0);
    var at := if i < SLOTS then i else FindFree(w.server.cache, 0);
    FreshExec(w, req);
    ReplyShape(w, req);
    assert w'.server.cache == w.server.cache[at := Last(req.client, out.reply)];
    assert Executes(w'.log, out.reply, |w.log|);
    forall j: nat | j < SLOTS && w'.server.cache[j].Last? ensures SlotOk(w', j) {
      if j != at {
        assert SlotOk(w, j) && !Holds(w.server.cache, j, req.client);
        var k: nat :| Executes(w.log, w.server.cache[j].reply, k) && w.log[k].req.client == w.server.cache[j].client;
        assert Executes(w'.log, w.server.cache[j].reply, k);
      }
    }
    forall k: nat | k < |w'.log| ensures HasSlot(w'.server.cache, w'.log[k].req.client) {
      if k == |w.log| || w.log[k].req.client == req.client {
        assert Holds(w'.server.cache, at, w'.log[k].req.client);
      } else {
        assert HasSlot(w.server.cache, w.log[k].req.client);
        var j: nat :| Holds(w.server.cache, j, w.log[k].req.client);
        assert Holds(w'.server.cache, j, w'.log[k].req.client);
      }
    }
  }

  lemma ReplyShape(w: World, req: Request)
    requires ServerOk(w.server) && Serve(w.server, req).Executed?
    ensures ServerOk(Serve(w.server, req).server)
    ensures Serve(w.server, req).reply.client == req.client && Serve(w.server, req).reply.seqno == req.seqno
  {
    HandlerValue(req.proc, req.args, w.server.value);
  }

  lemma ExecStep(w: World, req: Request)
    requires Inv(w) && |w.clients| <= SLOTS && Enabled(w, Arrive(req)) && Serve(w.server, req).Executed?
    ensures Inv(Do(w, Arrive(req)))
  {
    hide Handler, Total, Holds, Serve, Genuine;
    var w', out := Do(w, Arrive(req)), Serve(w.server, req);
    ExecLog(w, req);
    ExecCache(w, req);
    var e := Exec(req, out.reply);
    assert Executes(w'.log, out.reply, |w.log|);
    forall r | r in w.replies ensures exists k: nat :: Executes(w'.log, r, k) { ExecutesMore(w.log, e, r); }
    forall q | q in w'.requests ensures exists d: nat, s: nat :: Made(w', q, d, s) {
      var d: nat, s: nat :| Made(w, q, d, s);
      assert Made(w', q, d, s);
    }
    forall d: nat, s: nat | d < |w'.clients| && s < |w'.clients[d].got| ensures ResultOk(w', d, s) {
      assert ResultOk(w, d, s);
      if w.clients[d].got[s].Answered? {
        var k: nat :| Executes(w.log, w.clients[d].got[s].reply, k) && w.log[k].req == w.clients[d].calls[s];
        assert Executes(w'.log, w.clients[d].got[s].reply, k);
      }
    }
  }

  lemma ServeStep(w: World, req: Request)
    requires Inv(w) && |w.clients| <= SLOTS && Enabled(w, Arrive(req))
    ensures Inv(Do(w, Arrive(req)))
  {
    hide Handler, Total;
    var out := Serve(w.server, req);
    if out.Executed? {
      ExecStep(w, req);
    } else if out.Again? {
      var i := Find(w.server.cache, req.client, 0);
      assert SlotOk(w, i);
      AgainStep(w, out.reply);
    }
  }

  lemma AgainStep(w: World, r: Reply)
    requires Inv(w) && exists k: nat :: Executes(w.log, r, k)
    ensures Inv(w.(replies := w.replies + {r}))
  {
    hide Handler, Total, HasSlot;
    var w' := w.(replies := w.replies + {r});
    forall q | q in w'.requests ensures exists d: nat, s: nat :: Made(w', q, d, s) {
      var d: nat, s: nat :| Made(w, q, d, s);
      assert Made(w', q, d, s);
    }
    forall k: nat | k < |w'.log| ensures Genuine(w', k) { assert Genuine(w, k); }
    forall i: nat | i < SLOTS && w'.server.cache[i].Last? ensures SlotOk(w', i) { assert SlotOk(w, i); }
    forall d: nat, s: nat | d < |w'.clients| && s < |w'.clients[d].got| ensures ResultOk(w', d, s) {
      assert ResultOk(w, d, s);
    }
  }

  // ---- whole runs -----------------------------------------------------------------------------

  predicate Run(states: seq<World>, steps: seq<Step>) {
    && |states| == |steps| + 1 && Init(states[0])
    && forall i | 0 <= i < |steps| :: Enabled(states[i], steps[i]) && states[i + 1] == Do(states[i], steps[i])
  }

  lemma {:induction false} RunInv(states: seq<World>, steps: seq<Step>, i: nat)
    requires Run(states, steps) && i < |states| && |states[0].clients| <= SLOTS
    ensures Inv(states[i]) && |states[i].clients| == |states[0].clients|
  {
    if i == 0 {
      InvInit(states[0]);
    } else {
      RunInv(states, steps, i - 1);
      var w, a := states[i - 1], steps[i - 1];
      assert states[i - 1 + 1] == Do(w, a);
      hide Init, Inv, Run, Serve;
      match a
      case Call(c, proc, args) => CallStep(w, c, proc, args);
      case GiveUp(c) => ResolveStep(w, c, NoAnswer);
      case Deliver(c, r) => ResolveStep(w, c, Answered(r));
      case Arrive(req) => ServeStep(w, req);
    }
  }

  /** No (client, number) is executed twice, and each client's calls are executed in increasing order. */
  lemma AtMostOnce(states: seq<World>, steps: seq<Step>, i: nat)
    requires Run(states, steps) && i < |states| && |states[0].clients| <= SLOTS
    ensures forall j, k | 0 <= j < k < |states[i].log| && states[i].log[j].req.client == states[i].log[k].req.client ::
              states[i].log[j].req.seqno < states[i].log[k].req.seqno
  {
    RunInv(states, steps, i);
  }

  /**
   A call that came back with a reply was executed exactly once, as it was made, and that reply is what the
   execution gave.
   */
  lemma ExactlyOnce(states: seq<World>, steps: seq<Step>, i: nat, c: nat, s: nat)
    requires Run(states, steps) && i < |states| && |states[0].clients| <= SLOTS
    requires c < |states[i].clients| && s < |states[i].clients[c].got| && states[i].clients[c].got[s].Answered?
    ensures s < |states[i].clients[c].calls|
    ensures var w, k := states[i], states[i].clients[c];
      exists n: nat :: Executes(w.log, k.got[s].reply, n) && w.log[n].req == k.calls[s] && Told(w.log, n)
        && forall m: nat | m < |w.log| && w.log[m].req.client == k.id && w.log[m].req.seqno == s + 1 :: m == n
  {
    RunInv(states, steps, i);
    var w := states[i];
    assert ResultOk(w, c, s);
    var n: nat :| Executes(w.log, w.clients[c].got[s].reply, n) && w.log[n].req == w.clients[c].calls[s];
    hide Handler, Total;
    assert Genuine(w, n);
    GenuineTold(w, n);
  }

  /**
   Every execution in a run got the reply its call is owed, with the counter as the executions before it left it:
   nothing at the start, and moved by inc calls alone.
   */
  lemma RepliesTell(states: seq<World>, steps: seq<Step>, i: nat, k: nat)
    requires Run(states, steps) && i < |states| && |states[0].clients| <= SLOTS && k < |states[i].log|
    ensures Told(states[i].log, k)
  {
    RunInv(states, steps, i);
    GenuineTold(states[i], k);
  }

  /** The k-th execution replied what the service owes, to the client and for the number of the request. */
  predicate Told(log: seq<Exec>, k: nat)
    requires k < |log|
  {
    var e, before, after := log[k], Total(log[..k]) % WORD, Total(log[..k + 1]) % WORD;
    && (k == 0 ==> before == 0)
    && e.reply.client == e.req.client && e.reply.seqno == e.req.seqno
    && Owed(e.req.proc, e.req.args, before, e.reply.status, e.reply.result, after)
  }

  lemma GenuineTold(w: World, k: nat)
    requires k < |w.log| && Genuine(w, k)
    ensures Told(w.log, k)
  {
    hide Owed, Handler;
    var e := w.log[k];
    HandlerPays(e.req.proc, e.req.args, Total(w.log[..k]) % WORD);
    HandlerValue(e.req.proc, e.req.args, Total(w.log[..k]) % WORD);
    assert w.log[..k + 1] == w.log[..k] + [e];
    TotalStep(w.log[..k], e);
  }

  /** The counter is the sum of the amounts of the distinct executed inc calls, modulo a word. */
  lemma CounterSum(states: seq<World>, steps: seq<Step>, i: nat)
    requires Run(states, steps) && i < |states| && |states[0].clients| <= SLOTS
    ensures states[i].server.value == Total(states[i].log) % WORD
    ensures forall k | 0 <= k < |states[i].log| :: states[i].log[k].req in states[i].requests
  {
    RunInv(states, steps, i);
    hide Handler, Run;
    forall k: nat | k < |states[i].log| ensures states[i].log[k].req in states[i].requests {
      assert Genuine(states[i], k);
    }
  }

  // ---- every call can be answered -------------------------------------------------------------

  /** Every call made has been sent. */
  ghost predicate Sent(w: World) {
    forall c, s | 0 <= c < |w.clients| && 0 <= s < |w.clients[c].calls| :: w.clients[c].calls[s] in w.requests
  }

  lemma SentStep(w: World, a: Step)
    requires Sent(w) && Enabled(w, a)
    ensures Sent(Do(w, a))
  {
    hide Serve;
  }

  lemma {:induction false} RunSent(states: seq<World>, steps: seq<Step>, i: nat)
    requires Run(states, steps) && i < |states|
    ensures Sent(states[i])
  {
    if i > 0 {
      RunSent(states, steps, i - 1);
      assert states[i - 1 + 1] == Do(states[i - 1], steps[i - 1]);
      hide Sent, Do, Enabled;
      SentStep(states[i - 1], steps[i - 1]);
    }
  }

  /** The server never drops the newest call of a client: it executes it or answers it again. */
  lemma NewestServed(w: World, c: nat)
    requires Inv(w) && Sent(w) && c < |w.clients| && w.clients[c].waiting
    ensures |w.clients[c].calls| > 0
    ensures var req := w.clients[c].calls[|w.clients[c].calls| - 1];
      && req in w.requests && req.client == w.clients[c].id && req.seqno == |w.clients[c].calls|
      && !Serve(w.server, req).Ghost?
      && var out := Serve(w.server, req); out.reply.client == req.client && out.reply.seqno == req.seqno
  {
    hide Handler, Total;
    var req := w.clients[c].calls[|w.clients[c].calls| - 1];
    var i := Find(w.server.cache, req.client, 0);
    if i < SLOTS {
      assert SlotOk(w, i);
      var k: nat :| Executes(w.log, w.server.cache[i].reply, k) && w.log[k].req.client == req.client;
      assert Genuine(w, k);
      var d: nat, s: nat :| Made(w, w.log[k].req, d, s);
      assert d == c;
    }
  }

  /** While the server runs, a waiting client is two steps from the answer to its call. */
  lemma CanBeAnswered(states: seq<World>, steps: seq<Step>, i: nat, c: nat) returns (req: Request, r: Reply)
    requires Run(states, steps) && i < |states| && |states[0].clients| <= SLOTS
    requires c < |states[i].clients| && states[i].clients[c].waiting && !states[i].server.halted
    ensures Enabled(states[i], Arrive(req)) && Enabled(Do(states[i], Arrive(req)), Deliver(c, r))
    ensures var w, k := Do(Do(states[i], Arrive(req)), Deliver(c, r)), states[i].clients[c];
      && |w.clients| == |states[i].clients| && !w.clients[c].waiting && w.clients[c].got == k.got + [Answered(r)]
      && w.clients[c].calls == k.calls && k.calls != [] && req == k.calls[|k.calls| - 1]
  {
    var w := states[i];
    RunInv(states, steps, i);
    RunSent(states, steps, i);
    NewestServed(w, c);
    hide Serve, Run;
    req := w.clients[c].calls[|w.clients[c].calls| - 1];
    r := Serve(w.server, req).reply;
  }

  // ---- past the cache's capacity --------------------------------------------------------------

  /**
   With every slot taken, serving one more client takes a slot away, and a late copy of that slot's last
   request, which would have been answered from the cache, is executed again.
   */
  lemma EvictedRunsTwice(sv: Server, req: Request, dup: Request)
    requires ServerOk(sv) && !sv.halted && req.proc != SHUTDOWN
    requires forall i | 0 <= i < SLOTS :: sv.cache[i].Last?
    requires forall i, j | 0 <= i < j < SLOTS :: sv.cache[i].client != sv.cache[j].client
    requires forall i | 0 <= i < SLOTS :: sv.cache[i].client != req.client
    requires dup.client == sv.cache[sv.evict].client && dup.seqno == sv.cache[sv.evict].reply.seqno
    ensures Serve(sv, dup).Again? && Serve(sv, req).Executed?
    ensures var sv' := Serve(sv, req).server; ServerOk(sv') && !sv'.halted && Serve(sv', dup).Executed?
  {
    RunsOn(req.proc, req.args, sv.value);
    hide Handler;
    HandlerValue(req.proc, req.args, sv.value);
    assert Holds(sv.cache, sv.evict, dup.client);
    var sv' := Serve(sv, req).server;
    assert forall i: nat | i < SLOTS :: !Holds(sv'.cache, i, dup.client);
  }

  /** Only a shutdown request halts the server. */
  lemma RunsOn(proc: nat, args: seq<byte>, value: nat)
    requires value < WORD && proc != SHUTDOWN
    ensures !Handler(proc, args, value).halt
  {
  }

  function Ping(c: nat): Request { Request(c, 1, PING, []) }
  function Pong(c: nat): Reply { Reply(c, 1, OK, []) }

  function PingCache(k: nat): (cache: seq<Slot>)
    ensures |cache| == SLOTS
  {
    seq(SLOTS, i requires 0 <= i < SLOTS => if i < k then Last(i, Pong(i)) else Free)
  }

  lemma PingSlot(k: nat)
    requires k < SLOTS
    ensures FindFree(PingCache(k), 0) == k && Find(PingCache(k), k, 0) == SLOTS
    ensures PingCache(k)[k := Last(k, Pong(k))] == PingCache(k + 1)
  {
    var cache := PingCache(k);
    assert cache[k].Free?;
  }

  /** n clients, the first k of which have each had one ping executed, in order. */
  ghost predicate Pinged(w: World, n: nat, k: nat) {
    && |w.clients| == n && k <= n && k <= SLOTS
    && (forall c | 0 <= c < n :: w.clients[c].id == c)
    && (forall c | k <= c < n :: w.clients[c] == Client(c, [], [], false))
    && (forall c | 0 <= c < k :: Ping(c) in w.requests)
    && w.server == Server(PingCache(k), 0, 0, false)
    && |w.log| == k && forall c | 0 <= c < k :: w.log[c].req == Ping(c)
  }

  /** A run may go on with any enabled step. */
  lemma RunMore(states: seq<World>, steps: seq<Step>, a: Step)
    requires Run(states, steps) && Enabled(states[|steps|], a)
    ensures Run(states + [Do(states[|steps|], a)], steps + [a])
  {
  }

  /** The next client calls, and its request arrives. */
  lemma PingOne(w: World, n: nat, k: nat)
    requires Pinged(w, n, k) && k < n
    ensures Enabled(w, Call(k, PING, [])) && Enabled(Do(w, Call(k, PING, [])), Arrive(Ping(k)))
    ensures k < SLOTS ==> Pinged(Do(Do(w, Call(k, PING, [])), Arrive(Ping(k))), n, k + 1)
  {
    hide PingCache, Find, FindFree;
    if k < SLOTS { PingSlot(k); }
  }

  lemma {:induction false} PingAll(n: nat, k: nat) returns (states: seq<World>, steps: seq<Step>)
    requires k <= n && k <= SLOTS
    ensures Run(states, steps) && |states[0].clients| == n && Pinged(states[|steps|], n, k)
  {
    if k == 0 {
      var clients := seq(n, c requires 0 <= c < n => Client(c, [], [], false));
      states := [World(clients, {}, {}, Server(seq(SLOTS, _ => Free), 0, 0, false), [])];
      assert PingCache(0) == seq(SLOTS, _ => Free);
      steps := [];
    } else {
      var was, did := PingAll(n, k - 1);
      states, steps := PingMore(was, did, n, k - 1);
    }
  }

  lemma PingMore(was: seq<World>, did: seq<Step>, n: nat, k: nat) returns (states: seq<World>, steps: seq<Step>)
    requires Run(was, did) && Pinged(was[|did|], n, k) && k < n
    ensures Run(states, steps) && states[0] == was[0]
    ensures states[|steps|] == Do(Do(was[|did|], Call(k, PING, [])), Arrive(Ping(k)))
    ensures k < SLOTS ==> Pinged(states[|steps|], n, k + 1)
  {
    hide Pinged, Do, Enabled;
    var w := was[|did|];
    PingOne(w, n, k);
    var w1 := Do(w, Call(k, PING, []));
    RunMore(was, did, Call(k, PING, []));
    RunMore(was + [w1], did + [Call(k, PING, [])], Arrive(Ping(k)));
    states, steps := was + [w1] + [Do(w1, Arrive(Ping(k)))], did + [Call(k, PING, [])] + [Arrive(Ping(k))];
  }

  /** No (client, number) appears twice among the executions. */
  predicate NeverTwice(w: World) {
    forall j, k | 0 <= j < k < |w.log| ::
      w.log[j].req.client != w.log[k].req.client || w.log[j].req.seqno != w.log[k].req.seqno
  }

  /** One client more than there are slots, then a late copy of the first client's request. */
  lemma PingPastCapacity(w: World, n: nat)
    requires Pinged(w, n, SLOTS) && n > SLOTS
    ensures Enabled(w, Call(SLOTS, PING, [])) && Enabled(Do(w, Call(SLOTS, PING, [])), Arrive(Ping(SLOTS)))
    ensures var w' := Do(Do(w, Call(SLOTS, PING, [])), Arrive(Ping(SLOTS)));
      Enabled(w', Arrive(Ping(0))) && !NeverTwice(Do(w', Arrive(Ping(0))))
  {
    hide Handler, Find, FindFree;
    PingOne(w, n, SLOTS);
    EvictedRunsTwice(w.server, Ping(SLOTS), Ping(0));
    var w' := Do(Do(w, Call(SLOTS, PING, [])), Arrive(Ping(SLOTS)));
    var log := Do(w', Arrive(Ping(0))).log;
    assert log[0].req == Ping(0) && log[SLOTS + 1].req == Ping(0);
  }

  /** For any number of clients beyond the slots some run executes one call twice. */
  lemma SomeRunTwice(n: nat) returns (states: seq<World>, steps: seq<Step>)
    requires n > SLOTS
    ensures Run(states, steps) && |states[0].clients| == n && !NeverTwice(states[|steps|])
  {
    hide Pinged, Do, Enabled, NeverTwice;
    var was, did := PingAll(n, SLOTS);
    PingPastCapacity(was[|did|], n);
    states, steps := PingMore(was, did, n, SLOTS);
    RunMore(states, steps, Arrive(Ping(0)));
    states, steps := states + [Do(states[|steps|], Arrive(Ping(0)))], steps + [Arrive(Ping(0))];
  }

  /** At most once, exactly: n clients never see a call executed twice if and only if there is a slot for each. */
  lemma AtMostOnceIff(n: nat)
    ensures n <= SLOTS <==>
            forall states: seq<World>, steps: seq<Step>, i: nat
              | Run(states, steps) && |states[0].clients| == n && i < |states| :: NeverTwice(states[i])
  {
    if n <= SLOTS {
      forall states: seq<World>, steps: seq<Step>, i: nat
        | Run(states, steps) && |states[0].clients| == n && i < |states|
        ensures NeverTwice(states[i])
      {
        AtMostOnce(states, steps, i);
      }
    } else {
      var states, steps := SomeRunTwice(n);
    }
  }
}
