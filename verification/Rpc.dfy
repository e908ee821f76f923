/** Remote calls over a network that loses, duplicates, delays and reorders: client, server and reply cache. */
module Rpc {
  import opened Bytes

  const MAXPAYLOAD: nat := 1200
  const SLOTS: nat := 64
  const WORD: nat := 0x1_0000_0000

  const OK: nat := 0
  const EPROC: nat := 1
  const EARG: nat := 2

  const PING: nat := 1
  const INC: nat := 2
  const GET: nat := 3
  const SLOW: nat := 4
  const SHUTDOWN: nat := 5

  datatype Request = Request(client: nat, seqno: nat, proc: nat, args: seq<byte>)
  datatype Reply = Reply(client: nat, seqno: nat, status: nat, result: seq<byte>)

  // ---- the counter service ------------------------------------------------------------------

  datatype Answer = Answer(status: nat, result: seq<byte>, value: nat, halt: bool)

  /** Big-endian word at the front of a packet. */
  function FirstWord(s: seq<byte>): nat
    requires |s| >= 4
  {
    s[0] as int * 0x100_0000 + s[1] as int * 0x1_0000 + s[2] as int * 0x100 + s[3] as int
  }

  function PutWord(n: nat): seq<byte>
    requires n < WORD
  {
    [n / 0x100_0000, n / 0x1_0000 % 256, n / 0x100 % 256, n % 256]
  }

  /** What an inc call adds; malformed arguments add nothing. */
  function Amount(proc: nat, args: seq<byte>): nat {
    if proc == INC && |args| >= 4 then FirstWord(args) else 0
  }

  /** The handler: a new counter value and what to answer. */
  function Handler(proc: nat, args: seq<byte>, value: nat): Answer
    requires value < WORD
  {
    if proc == PING then Answer(OK, args, value, false)
    else if proc == INC then
      if |args| < 4 then Answer(EARG, [], value, false)
      else
        var v := (value + FirstWord(args)) % WORD;
        Answer(OK, PutWord(v), v, false)
    else if proc == GET then Answer(OK, PutWord(value), value, false)
    else if proc == SLOW then
      if |args| < 4 || FirstWord(args) > 5000 then Answer(EARG, [], value, false)
      else Answer(OK, [115, 108, 111, 119], value, false)
    else if proc == SHUTDOWN then Answer(OK, [], value, true)
    else Answer(EPROC, [], value, false)
  }

  /** Most significant byte first, and back. */
  lemma BigEndian(n: nat)
    requires n < WORD
    ensures |PutWord(n)| == 4 && FirstWord(PutWord(n)) == n
    ensures var s := PutWord(n);
      n == s[0] as int * 0x100_0000 + s[1] as int * 0x1_0000 + s[2] as int * 0x100 + s[3] as int
  {
    var a, b, c := n / 0x100, n / 0x1_0000, n / 0x100_0000;
    assert b == a / 256 && c == b / 256;
  }

  /** Four bytes are the word they are read as. */
  lemma ReadBack(s: seq<byte>)
    requires |s| >= 4
    ensures FirstWord(s) < WORD && PutWord(FirstWord(s)) == s[..4]
  {
    var n := FirstWord(s);
    var a, b, c := n / 0x100, n / 0x1_0000, n / 0x100_0000;
    assert a == s[0] as int * 0x1_0000 + s[1] as int * 0x100 + s[2] as int;
    assert b == s[0] as int * 0x100 + s[1] as int && c == s[0];
  }

  /**
   What the counter service owes for a call, with `before` and `after` the counter around it. The numbers are those
   on the wire: procedures 1 to 5, statuses 0 (done), 1 (no such procedure) and 2 (malformed arguments).
   */
  predicate Owed(proc: nat, args: seq<byte>, before: nat, status: nat, result: seq<byte>, after: nat) {
    && (status == 1 <==> !(1 <= proc <= 5))
    && (status == 2 <==> (proc == 2 && |args| < 4) || (proc == 4 && (|args| < 4 || FirstWord(args) > 5000)))
    && (status == 0 <==> status != 1 && status != 2)
    && (proc == 1 ==> result == args)
    && (proc == 2 && status == 0 ==>
          && |result| == 4 && FirstWord(result) == after
          && (after == before + FirstWord(args) || after + WORD == before + FirstWord(args)))
    && (proc == 3 ==> |result| == 4 && FirstWord(result) == before)
    && (proc == 4 && status == 0 ==> result == [115, 108, 111, 119])
    && (proc == 5 || status != 0 ==> result == [])
    && (proc != 2 || status != 0 ==> after == before)
  }

  /** The handler pays it, and only a shutdown stops the server. */
  lemma HandlerPays(proc: nat, args: seq<byte>, value: nat)
    requires value < WORD
    ensures var a := Handler(proc, args, value);
      a.value < WORD && Owed(proc, args, value, a.status, a.result, a.value) && (a.halt <==> proc == 5)
  {
    hide FirstWord, PutWord;
    BigEndian(value);
    if |args| >= 4 {
      ReadBack(args);
      BigEndian((value + FirstWord(args)) % WORD);
    }
  }

  // ---- the server -----------------------------------------------------------------------------

  datatype Slot = Free | Last(client: nat, reply: Reply)

  datatype Server = Server(cache: seq<Slot>, evict: nat, value: nat, halted: bool)

  predicate ServerOk(sv: Server) { |sv.cache| == SLOTS && sv.evict < SLOTS && sv.value < WORD }

  predicate Holds(cache: seq<Slot>, i: nat, client: nat) { i < |cache| && cache[i].Last? && cache[i].client == client }

  /** cache_find: the first slot of that client, or the number of slots. */
  function Find(cache: seq<Slot>, client: nat, from: nat): (i: nat)
    ensures i <= |cache| || i == from
    ensures from <= i && (forall j | from <= j < i :: !Holds(cache, j, client))
            && (i < |cache| ==> Holds(cache, i, client))
    decreases |cache| - from
  {
    if from >= |cache| || Holds(cache, from, client) then from else Find(cache, client, from + 1)
  }

  /** cache_take: the first free slot, or the number of slots. */
  function FindFree(cache: seq<Slot>, from: nat): (i: nat)
    ensures i <= |cache| || i == from
    ensures from <= i && (forall j | from <= j < i && j < |cache| :: cache[j].Last?) && (i < |cache| ==> cache[i].Free?)
    decreases |cache| - from
  {
    if from >= |cache| || cache[from].Free? then from else FindFree(cache, from + 1)
  }

  /** What serving one request does. */
  datatype Outcome =
    | Again(reply: Reply)                 // the cached reply, sent once more
    | Ghost                               // older than the cached call: nothing
    | Executed(server: Server, reply: Reply)

  function Serve(sv: Server, req: Request): Outcome
    requires ServerOk(sv)
  {
    var i := Find(sv.cache, req.client, 0);
    if i < SLOTS && sv.cache[i].reply.seqno == req.seqno then Again(sv.cache[i].reply)
    else if i < SLOTS && req.seqno < sv.cache[i].reply.seqno then Ghost
    else
      var a := Handler(req.proc, req.args, sv.value);
      var reply := Reply(req.client, req.seqno, a.status, a.result);
      var free := FindFree(sv.cache, 0);
      var at := if i < SLOTS then i else if free < SLOTS then free else sv.evict;
      var evict := if i >= SLOTS && free >= SLOTS then (sv.evict + 1) % SLOTS else sv.evict;
      Executed(Server(sv.cache[at := Last(req.client, reply)], evict, a.value, a.halt), reply)
  }

  /** One client's slot: answered again, dropped or executed by comparing the numbers alone. */
  lemma ServeByNumber(sv: Server, req: Request, i: nat)
    requires ServerOk(sv) && Holds(sv.cache, i, req.client)
    requires forall j: nat | j < SLOTS && j != i :: !Holds(sv.cache, j, req.client)
    ensures var last := sv.cache[i].reply.seqno;
      && (req.seqno == last ==> Serve(sv, req) == Again(sv.cache[i].reply))
      && (req.seqno < last ==> Serve(sv, req) == Ghost)
      && (req.seqno > last ==> Serve(sv, req).Executed?)
  {
  }

  /** An execution is remembered in one slot: the client's, else a free one, else the cursor's, which moves on. */
  lemma ServeRemembers(sv: Server, req: Request) returns (at: nat)
    requires ServerOk(sv) && Serve(sv, req).Executed?
    ensures at < SLOTS
    ensures var sv' := Serve(sv, req).server;
      && sv'.cache == sv.cache[at := Last(req.client, Serve(sv, req).reply)]
      && if exists i: nat :: Holds(sv.cache, i, req.client) then
           Holds(sv.cache, at, req.client) && sv'.evict == sv.evict
         else if exists i: nat :: i < SLOTS && sv.cache[i].Free? then sv.cache[at].Free? && sv'.evict == sv.evict
         else at == sv.evict && (sv'.evict == at + 1 || (at == SLOTS - 1 && sv'.evict == 0))
  {
    hide Handler;
    var i, free := Find(sv.cache, req.client, 0), FindFree(sv.cache, 0);
    at := if i < SLOTS then i else if free < SLOTS then free else sv.evict;
    if i < SLOTS { assert Holds(sv.cache, i, req.client); }
  }

  /** The server's tables, updated in place as requests arrive. */
  class RpcServer {
    var cache: array<Slot>
    var evict: nat
    var value: nat
    var halted: bool
    var handled: nat
    var dups: nat

    ghost function State(): Server
      reads this, cache
    {
      Server(cache[..], evict, value, halted)
    }

    ghost predicate Ok()
      reads this, cache
    {
      ServerOk(State())
    }

    constructor ()
      ensures Ok() && fresh(cache) && State() == Server(seq(SLOTS, _ => Free), 0, 0, false)
    {
      cache := new Slot[SLOTS](_ => Free);
      evict, value, halted, handled, dups := 0, 0, false, 0, 0;
      new;
      assert cache[..] == seq(SLOTS, _ => Free);
    }

    method CacheFind(client: nat) returns (i: nat)
      requires Ok()
      ensures i == Find(cache[..], client, 0)
    {
      i := 0;
      while i < SLOTS && !(cache[i].Last? && cache[i].client == client)
        invariant i <= SLOTS && Find(cache[..], client, 0) == Find(cache[..], client, i)
      {
        i := i + 1;
      }
    }

    /** A slot for a new client: a free one, or the next victim. */
    method CacheTake() returns (i: nat)
      requires Ok()
      modifies this`evict
      ensures var free := FindFree(cache[..], 0);
        if free < SLOTS then i == free && evict == old(evict) else i == old(evict) && evict == (old(evict) + 1) % SLOTS
    {
      i := 0;
      while i < SLOTS && cache[i].Last?
        invariant i <= SLOTS && FindFree(cache[..], 0) == FindFree(cache[..], i)
      {
        i := i + 1;
      }
      if i == SLOTS {
        i := evict;
        evict := (evict + 1) % SLOTS;
      }
    }

    /** One request: answered from the cache, dropped, or executed. `sent` says whether a reply went out. */
    method Handle(req: Request) returns (sent: bool, reply: Reply)
      requires Ok() && !halted
      modifies this, cache
      ensures Ok() && cache == old(cache)
      ensures match Serve(old(State()), req)
        case Again(r) => sent && reply == r && State() == old(State()) && handled == old(handled)
          && dups == old(dups) + 1
        case Ghost => !sent && State() == old(State()) && handled == old(handled) && dups == old(dups)
        case Executed(sv, r) => sent && reply == r && State() == sv && handled == old(handled) + 1 && dups == old(dups)
    {
      reply := Reply(req.client, req.seqno, OK, []);
      var e := CacheFind(req.client);
      if e < SLOTS && cache[e].reply.seqno == req.seqno {
        dups := dups + 1;
        return true, cache[e].reply;
      }
      if e < SLOTS && req.seqno < cache[e].reply.seqno {
        return false, reply;
      }
      var a := Handler(req.proc, req.args, value);
      if e == SLOTS {
        e := CacheTake();
      }
      reply := Reply(req.client, req.seqno, a.status, a.result);
      cache[e] := Last(req.client, reply);
      value, halted := a.value, a.halt;
      handled := handled + 1;
      sent := true;
    }
  }
}
