// The peer-to-peer message engine of p2p_network.py (class P2PNetwork), as a
// sequential state machine.  Sockets are reduced to "present / absent",
// the outcome of each connection attempt and of each write is an oracle
// argument, the clock is the list of elapsed-time readings `receive` makes,
// and the messages that handler threads deliver while `receive` sleeps are an
// argument too.  Attempts, sleeps, writes and closes are recorded in `trace`.
module P2P {
  import opened Wrappers
  import NetworkEvents

  /** A decoded JSON value, as `json.loads` returns it. */
  datatype Json =
    | JNull
    | JBool(b: bool)
    | JNum(n: real)
    | JStr(s: string)
    | JArr(items: seq<Json>)
    | JObj(fields: map<string, Json>)

  /** A message on the wire and in the queue: a JSON object. */
  type Message = map<string, Json>

  /** Python truthiness: the JSON values that `data or {}` replaces. */
  predicate Falsy(j: Json) {
    j == JNull || j == JBool(false) || j == JNum(0.0) || j == JStr("")
    || j == JArr([]) || j == JObj(map[])
  }

  /** The `event` argument of `send`/`receive`: an enum member or a name. */
  datatype EventArg = Member(e: NetworkEvents.NetworkEvent) | Text(s: string)

  /** What the environment observes the peer do. */
  datatype NetEffect =
    | Attempt(host: string, port: int, ok: bool)
    | Sleep(seconds: real)
    | Write(message: Message, ok: bool)
    | CloseClient
    | CloseServer

  const MaxRetries: nat := 5
  const RetryDelay: real := 1.0

  // ---------------------------------------------------------------------
  // Message envelope and receive filter
  // ---------------------------------------------------------------------

  /** `send`'s event name: the member's value, or the text itself. */
  function EventName(event: EventArg): string {
    match event
    case Member(e) => NetworkEvents.ToString(e)
    case Text(s) => s
  }

  /** The dictionary `send` serialises. */
  function Envelope(event: EventArg, data: Json, now: real): (m: Message)
    ensures m.Keys == {"event", "data", "timestamp"}
    ensures m["event"] == JStr(EventName(event)) && m["timestamp"] == JNum(now)
    ensures Falsy(data) ==> m["data"] == JObj(map[])
    ensures !Falsy(data) ==> m["data"] == data
  {
    map["event" := JStr(EventName(event)),
        "data" := (if Falsy(data) then JObj(map[]) else data),
        "timestamp" := JNum(now)]
  }

  /** `receive`'s filter: None for no argument and for an empty name. */
  function TargetOf(event: Option<EventArg>): (r: Option<string>)
    ensures r.None? <==> event.None? || event == Some(Text(""))
    ensures r.Some? ==> r.value == EventName(event.value)
  {
    match event
    case None => None
    case Some(Member(e)) => Some(NetworkEvents.ToString(e))
    case Some(Text(s)) => if s == "" then None else Some(s)
  }

  /** Whether `msg` passes the filter `target`. */
  predicate Wanted(msg: Message, target: Option<string>) {
    target.None? || ("event" in msg && msg["event"] == JStr(target.value))
  }

  /** A sent message is picked up by a receive filtered on the same event. */
  lemma SentIsWanted(event: EventArg, data: Json, now: real)
    ensures Wanted(Envelope(event, data, now), TargetOf(Some(event)))
  {
  }

  /** With no filter, or an empty name, every message is wanted. */
  lemma EmptyFilterWantsAll(msg: Message)
    ensures TargetOf(None) == None && TargetOf(Some(Text(""))) == None
    ensures Wanted(msg, TargetOf(None)) && Wanted(msg, TargetOf(Some(Text(""))))
  {
  }

  /** The index of the first queued message that passes the filter. */
  function FirstMatch(queue: seq<Message>, target: Option<string>): (r: Option<nat>)
    ensures r.Some? ==> r.value < |queue| && Wanted(queue[r.value], target)
    ensures r.Some? ==> forall j :: 0 <= j < r.value ==> !Wanted(queue[j], target)
    ensures r.None? ==> forall j :: 0 <= j < |queue| ==> !Wanted(queue[j], target)
  {
    if queue == [] then None
    else if Wanted(queue[0], target) then Some(0)
    else
      match FirstMatch(queue[1..], target)
      case None => None
      case Some(i) => Some(i + 1)
  }

  // ---------------------------------------------------------------------
  // receive
  // ---------------------------------------------------------------------

  /** The message a receive returns and the queue it leaves behind. */
  datatype RecvRun = RecvRun(msg: Option<Message>, queue: seq<Message>)

  /** The batch of messages delivered during the k-th pause. */
  function Batch(arrivals: seq<seq<Message>>, k: nat): seq<Message> {
    if k < |arrivals| then arrivals[k] else []
  }

  /** Everything delivered during pauses k .. n-1, in order. */
  function Arrived(arrivals: seq<seq<Message>>, k: nat, n: nat): seq<Message>
    decreases n - k
  {
    if k >= n then [] else Batch(arrivals, k) + Arrived(arrivals, k + 1, n)
  }

  /**
   * The polling loop from poll k on: while the elapsed time read at poll k
   * is below the timeout, scan the queue; pop and return the first wanted
   * message, or pause (letting batch k arrive) and poll again.
   */
  function RecvSpec(queue: seq<Message>, target: Option<string>, timeout: real,
                    elapsed: seq<real>, arrivals: seq<seq<Message>>, k: nat): RecvRun
    requires k <= |elapsed|
    decreases |elapsed| - k
  {
    if k == |elapsed| || elapsed[k] >= timeout then RecvRun(None, queue)
    else
      match FirstMatch(queue, target)
      case Some(i) => RecvRun(Some(queue[i]), queue[..i] + queue[i + 1..])
      case None =>
        RecvSpec(queue + Batch(arrivals, k), target, timeout, elapsed, arrivals, k + 1)
  }

  /**
   * The clock readings end at or past the deadline: the source re-reads the
   * clock until a reading reaches the timeout, so a run's readings end there.
   */
  predicate ClockExpires(elapsed: seq<real>, timeout: real) {
    |elapsed| > 0 && elapsed[|elapsed| - 1] >= timeout
  }

  /**
   * Once a reading has reached the timeout, later readings are never
   * consulted: the loop never runs out of readings before the deadline.
   */
  lemma {:induction false} ReadingsSuffice(queue: seq<Message>, target: Option<string>, timeout: real,
      elapsed: seq<real>, more: seq<real>, arrivals: seq<seq<Message>>, k: nat)
    requires k < |elapsed| && ClockExpires(elapsed, timeout)
    ensures RecvSpec(queue, target, timeout, elapsed + more, arrivals, k)
            == RecvSpec(queue, target, timeout, elapsed, arrivals, k)
    decreases |elapsed| - k
  {
    assert (elapsed + more)[k] == elapsed[k];
    if elapsed[k] < timeout && FirstMatch(queue, target).None? {
      ReadingsSuffice(queue + Batch(arrivals, k), target, timeout, elapsed, more, arrivals, k + 1);
    }
  }

  /** One poll that finds a wanted message. */
  lemma RecvFound(queue: seq<Message>, target: Option<string>, timeout: real,
                  elapsed: seq<real>, arrivals: seq<seq<Message>>, k: nat, i: nat)
    requires k < |elapsed| && elapsed[k] < timeout && FirstMatch(queue, target) == Some(i)
    ensures i < |queue|
    ensures RecvSpec(queue, target, timeout, elapsed, arrivals, k)
            == RecvRun(Some(queue[i]), queue[..i] + queue[i + 1..])
  {
  }

  /** One poll that finds nothing, followed by a pause. */
  lemma RecvMiss(queue: seq<Message>, target: Option<string>, timeout: real,
                 elapsed: seq<real>, arrivals: seq<seq<Message>>, k: nat)
    requires k < |elapsed| && elapsed[k] < timeout && FirstMatch(queue, target) == None
    ensures RecvSpec(queue, target, timeout, elapsed, arrivals, k)
            == RecvSpec(queue + Batch(arrivals, k), target, timeout, elapsed, arrivals, k + 1)
  {
  }

  /** The queue q, from which a receive popped its first wanted message i. */
  predicate PopsAt(queue: seq<Message>, arrivals: seq<seq<Message>>, k: nat, n: nat,
                   i: nat, target: Option<string>, r: RecvRun)
  {
    var q := queue + Arrived(arrivals, k, n);
    FirstMatch(q, target) == Some(i) && r.msg == Some(q[i]) && r.queue == q[..i] + q[i + 1..]
  }

  /**
   * A receive that returns a message took it from the queue as it stood at
   * some poll (the original queue plus what arrived meanwhile): it is the
   * first wanted message there, and every other message stays, in order.
   * A receive that times out removes nothing.
   */
  lemma {:induction false} ReceivePopsFirstMatch(queue: seq<Message>, target: Option<string>,
      timeout: real, elapsed: seq<real>, arrivals: seq<seq<Message>>, k: nat)
    requires k <= |elapsed|
    ensures var r := RecvSpec(queue, target, timeout, elapsed, arrivals, k);
      r.msg.Some? ==> exists n: nat, i: nat :: PopsAt(queue, arrivals, k, n, i, target, r)
    ensures var r := RecvSpec(queue, target, timeout, elapsed, arrivals, k);
      r.msg.None? ==> exists n: nat :: r.queue == queue + Arrived(arrivals, k, n)
    decreases |elapsed| - k
  {
    var r := RecvSpec(queue, target, timeout, elapsed, arrivals, k);
    if k == |elapsed| || elapsed[k] >= timeout {
      assert r.queue == queue + Arrived(arrivals, k, k);
    } else if FirstMatch(queue, target).Some? {
      assert queue + Arrived(arrivals, k, k) == queue;
      assert PopsAt(queue, arrivals, k, k, FirstMatch(queue, target).value, target, r);
    } else {
      var q1 := queue + Batch(arrivals, k);
      assert r == RecvSpec(q1, target, timeout, elapsed, arrivals, k + 1);
      ReceivePopsFirstMatch(q1, target, timeout, elapsed, arrivals, k + 1);
      if r.msg.Some? {
        var n: nat, i: nat :| PopsAt(q1, arrivals, k + 1, n, i, target, r);
        var m := ArrivedStep(queue, arrivals, k, n);
        assert PopsAt(queue, arrivals, k, m, i, target, r);
      } else {
        var n: nat :| r.queue == q1 + Arrived(arrivals, k + 1, n);
        var m := ArrivedStep(queue, arrivals, k, n);
      }
    }
  }

  /** One more pause: what arrived from pause k+1 on, after batch k. */
  lemma ArrivedStep(queue: seq<Message>, arrivals: seq<seq<Message>>, k: nat, n: nat) returns (m: nat)
    ensures (queue + Batch(arrivals, k)) + Arrived(arrivals, k + 1, n) == queue + Arrived(arrivals, k, m)
  {
    m := if n <= k then k + 1 else n;
    assert Arrived(arrivals, k + 1, n) == Arrived(arrivals, k + 1, m);
    assert Arrived(arrivals, k, m) == Batch(arrivals, k) + Arrived(arrivals, k + 1, m);
  }

  /** The returned message always passes the filter. */
  lemma ReceiveReturnsWanted(queue: seq<Message>, target: Option<string>,
      timeout: real, elapsed: seq<real>, arrivals: seq<seq<Message>>)
    ensures var r := RecvSpec(queue, target, timeout, elapsed, arrivals, 0);
      r.msg.Some? ==> Wanted(r.msg.value, target)
  {
    ReceivePopsFirstMatch(queue, target, timeout, elapsed, arrivals, 0);
  }

  /** Nothing arrives: a timed-out receive leaves the queue as it was. */
  lemma ReceiveTimeoutKeepsQueue(queue: seq<Message>, target: Option<string>,
      timeout: real, elapsed: seq<real>)
    ensures var r := RecvSpec(queue, target, timeout, elapsed, [], 0);
      r.msg.None? ==> r.queue == queue
  {
    ReceivePopsFirstMatch(queue, target, timeout, elapsed, [], 0);
    var r := RecvSpec(queue, target, timeout, elapsed, [], 0);
    if r.msg.None? {
      var n: nat :| r.queue == queue + Arrived([], 0, n);
      ArrivedNothing(0, n);
    }
  }

  lemma {:induction false} ArrivedNothing(k: nat, n: nat)
    ensures Arrived([], k, n) == []
    decreases n - k
  {
    if k < n {
      ArrivedNothing(k + 1, n);
    }
  }

  /** With a non-positive timeout (and a clock that does not run backwards)
      the queue is never scanned. */
  lemma ReceiveExpired(queue: seq<Message>, target: Option<string>,
      timeout: real, elapsed: seq<real>, arrivals: seq<seq<Message>>)
    requires timeout <= 0.0
    requires forall j :: 0 <= j < |elapsed| ==> elapsed[j] >= 0.0
    ensures RecvSpec(queue, target, timeout, elapsed, arrivals, 0) == RecvRun(None, queue)
  {
  }

  /** Without a filter the first poll pops the head of a non-empty queue. */
  lemma ReceiveAnyPopsHead(queue: seq<Message>, event: Option<EventArg>,
      timeout: real, elapsed: seq<real>, arrivals: seq<seq<Message>>)
    requires event == None || event == Some(Text(""))
    requires queue != [] && elapsed != [] && elapsed[0] < timeout
    ensures RecvSpec(queue, TargetOf(event), timeout, elapsed, arrivals, 0)
            == RecvRun(Some(queue[0]), queue[1..])
  {
  }

  // ---------------------------------------------------------------------
  // _handle_client
  // ---------------------------------------------------------------------

  /**
   * One `recv` result: a payload that decodes to a JSON object, bytes that
   * are UTF-8 but not JSON (skipped), bytes that are not UTF-8 (the decode
   * error is not a JSON error, so it ends the handler), or an empty read.
   */
  datatype Chunk = Payload(message: Message) | BadJson | BadText | Closed

  predicate Ends(c: Chunk) {
    c.BadText? || c.Closed?
  }

  /** The messages the handler queues from a sequence of reads. */
  function Decoded(chunks: seq<Chunk>): seq<Message> {
    if chunks == [] || Ends(chunks[0]) then []
    else (if chunks[0].Payload? then [chunks[0].message] else []) + Decoded(chunks[1..])
  }

  /** Reference definitions: every payload, and where the handler stops. */
  function Payloads(chunks: seq<Chunk>): seq<Message> {
    if chunks == [] then []
    else Payloads(chunks[..|chunks| - 1])
         + (if chunks[|chunks| - 1].Payload? then [chunks[|chunks| - 1].message] else [])
  }

  function EndOf(chunks: seq<Chunk>): (n: nat)
    ensures n <= |chunks|
    ensures n < |chunks| ==> Ends(chunks[n])
    ensures forall j :: 0 <= j < n ==> !Ends(chunks[j])
  {
    if chunks == [] then 0
    else if Ends(chunks[0]) then 0
    else 1 + EndOf(chunks[1..])
  }

  lemma {:induction false} PayloadsCons(c: Chunk, rest: seq<Chunk>)
    ensures Payloads([c] + rest) == (if c.Payload? then [c.message] else []) + Payloads(rest)
    decreases |rest|
  {
    if rest == [] {
      assert [c] + rest == [c];
      assert [c][..0] == [];
    } else {
      var last := rest[|rest| - 1];
      assert ([c] + rest)[..|rest|] == [c] + rest[..|rest| - 1];
      PayloadsCons(c, rest[..|rest| - 1]);
    }
  }

  /**
   * The handler queues exactly the payloads read before the first empty
   * read or undecodable chunk, in order; invalid JSON adds nothing.
   */
  lemma {:induction false} DecodedIsPayloadsBeforeEnd(chunks: seq<Chunk>)
    ensures Decoded(chunks) == Payloads(chunks[..EndOf(chunks)])
    ensures |Decoded(chunks)| <= |chunks|
  {
    if chunks == [] || Ends(chunks[0]) {
      assert chunks[..EndOf(chunks)] == [];
    } else {
      DecodedIsPayloadsBeforeEnd(chunks[1..]);
      assert chunks[..EndOf(chunks)] == [chunks[0]] + chunks[1..][..EndOf(chunks[1..])];
      PayloadsCons(chunks[0], chunks[1..][..EndOf(chunks[1..])]);
    }
  }

  // ---------------------------------------------------------------------
  // _connect_to_peer
  // ---------------------------------------------------------------------

  /** How many attempts the retry loop makes from attempt j on. */
  function AttemptsFrom(connectOk: nat -> bool, first: nat, j: nat): (n: nat)
    requires j < MaxRetries
    ensures j < n <= MaxRetries
    decreases MaxRetries - j
  {
    if connectOk(first + j) || j == MaxRetries - 1 then j + 1
    else AttemptsFrom(connectOk, first, j + 1)
  }

  /** The effects of n attempts: each failed one but the last is followed by a pause. */
  function AttemptTrace(host: string, port: int, connectOk: nat -> bool, first: nat, n: nat): seq<NetEffect> {
    if n == 0 then []
    else AttemptTrace(host, port, connectOk, first, n - 1)
         + (if n > 1 then [Sleep(RetryDelay)] else [])
         + [Attempt(host, port, connectOk(first + n - 1))]
  }

  /** One more attempt after n of them. */
  lemma AttemptTraceStep(host: string, port: int, connectOk: nat -> bool, first: nat, n: nat)
    ensures AttemptTrace(host, port, connectOk, first, n + 1)
            == AttemptTrace(host, port, connectOk, first, n)
               + (if n > 0 then [Sleep(RetryDelay)] else [])
               + [Attempt(host, port, connectOk(first + n))]
  {
  }

  /** A failed attempt that is not the last leaves the attempt count as it was. */
  lemma AttemptsFromStep(connectOk: nat -> bool, first: nat, j: nat)
    requires j < MaxRetries - 1 && !connectOk(first + j)
    ensures AttemptsFrom(connectOk, first, j + 1) == AttemptsFrom(connectOk, first, j)
  {
  }

  /** The outcome of one call of the retry loop; its j-th attempt is attempt
      number first + j of the oracle `connectOk`. */
  datatype ConnectRun = ConnectRun(ok: bool, attempts: nat, effects: seq<NetEffect>)

  predicate HasHost(host: Option<string>) {
    host.Some? && host.value != ""
  }

  function ConnectSpec(host: Option<string>, port: int, connectOk: nat -> bool, first: nat): ConnectRun {
    if !HasHost(host) then ConnectRun(false, 0, [])
    else
      var n := AttemptsFrom(connectOk, first, 0);
      ConnectRun(connectOk(first + n - 1), n, AttemptTrace(host.value, port, connectOk, first, n))
  }

  /** The retry loop stops after attempt j when it connects or when it was the last. */
  lemma ConnectStops(host: Option<string>, port: int, connectOk: nat -> bool, first: nat, j: nat)
    requires HasHost(host) && j < MaxRetries
    requires AttemptsFrom(connectOk, first, j) == AttemptsFrom(connectOk, first, 0)
    requires connectOk(first + j) || j == MaxRetries - 1
    ensures ConnectSpec(host, port, connectOk, first)
            == ConnectRun(connectOk(first + j), j + 1, AttemptTrace(host.value, port, connectOk, first, j + 1))
  {
  }

  /** The number of effects satisfying p. */
  function Count(es: seq<NetEffect>, p: NetEffect -> bool): nat {
    if es == [] then 0 else Count(es[..|es| - 1], p) + (if p(es[|es| - 1]) then 1 else 0)
  }

  lemma {:induction false} CountAppend(a: seq<NetEffect>, b: seq<NetEffect>, p: NetEffect -> bool)
    ensures Count(a + b, p) == Count(a, p) + Count(b, p)
    decreases |b|
  {
    if b == [] {
      assert a + b == a;
    } else {
      assert (a + b)[..|a + b| - 1] == a + b[..|b| - 1];
      CountAppend(a, b[..|b| - 1], p);
    }
  }

  predicate IsAttempt(e: NetEffect) { e.Attempt? }
  predicate IsSleep(e: NetEffect) { e.Sleep? }
  predicate IsWrite(e: NetEffect) { e.Write? }
  predicate IsGoodWrite(e: NetEffect) { e.Write? && e.ok }

  lemma {:induction false} AttemptTraceCounts(host: string, port: int, connectOk: nat -> bool, first: nat, n: nat)
    ensures var t := AttemptTrace(host, port, connectOk, first, n);
      Count(t, IsAttempt) == n
      && Count(t, IsSleep) == (if n == 0 then 0 else n - 1)
      && Count(t, IsWrite) == 0 && Count(t, IsGoodWrite) == 0
  {
    if n > 0 {
      var prev := AttemptTrace(host, port, connectOk, first, n - 1);
      var e := Attempt(host, port, connectOk(first + n - 1));
      AttemptTraceCounts(host, port, connectOk, first, n - 1);
      if n > 1 {
        var mid := prev + [Sleep(RetryDelay)];
        CountSnoc(prev, Sleep(RetryDelay), IsAttempt);
        CountSnoc(prev, Sleep(RetryDelay), IsSleep);
        CountSnoc(prev, Sleep(RetryDelay), IsWrite);
        CountSnoc(prev, Sleep(RetryDelay), IsGoodWrite);
        CountSnoc(mid, e, IsAttempt);
        CountSnoc(mid, e, IsSleep);
        CountSnoc(mid, e, IsWrite);
        CountSnoc(mid, e, IsGoodWrite);
      } else {
        assert AttemptTrace(host, port, connectOk, first, n) == prev + [e];
        CountSnoc(prev, e, IsAttempt);
        CountSnoc(prev, e, IsSleep);
        CountSnoc(prev, e, IsWrite);
        CountSnoc(prev, e, IsGoodWrite);
      }
    }
  }

  lemma {:induction false} AttemptsFromFacts(connectOk: nat -> bool, first: nat, j: nat)
    requires j < MaxRetries
    ensures var n := AttemptsFrom(connectOk, first, j);
      (forall a :: first + j <= a < first + n - 1 ==> !connectOk(a))
      && (connectOk(first + n - 1) <==> exists a :: first + j <= a < first + MaxRetries && connectOk(a))
      && (!connectOk(first + n - 1) ==> n == MaxRetries)
    decreases MaxRetries - j
  {
    if connectOk(first + j) {
      assert first + j <= first + j < first + MaxRetries && connectOk(first + j);
    } else if j < MaxRetries - 1 {
      AttemptsFromFacts(connectOk, first, j + 1);
      if exists a :: first + j <= a < first + MaxRetries && connectOk(a) {
        var a :| first + j <= a < first + MaxRetries && connectOk(a);
        assert a != first + j;
      }
    }
  }

  /**
   * The retry loop: no host means no attempt and failure; otherwise at most
   * five attempts with a pause between consecutive ones, success exactly when
   * one of the five attempts connects, and then it is the last attempt made.
   */
  lemma ConnectBounds(host: Option<string>, port: int, connectOk: nat -> bool, first: nat)
    ensures var r := ConnectSpec(host, port, connectOk, first);
      r.attempts <= MaxRetries
      && Count(r.effects, IsAttempt) == r.attempts
      && Count(r.effects, IsSleep) == (if r.attempts == 0 then 0 else r.attempts - 1)
      && Count(r.effects, IsWrite) == 0 && Count(r.effects, IsGoodWrite) == 0
    ensures var r := ConnectSpec(host, port, connectOk, first);
      !HasHost(host) ==> !r.ok && r.attempts == 0 && r.effects == []
    ensures var r := ConnectSpec(host, port, connectOk, first);
      HasHost(host) ==>
        (r.ok <==> exists a :: first <= a < first + MaxRetries && connectOk(a))
        && (r.ok ==> connectOk(first + r.attempts - 1))
        && (forall a :: first <= a < first + r.attempts - 1 ==> !connectOk(a))
        && (!r.ok ==> r.attempts == MaxRetries)
  {
    if HasHost(host) {
      var n := AttemptsFrom(connectOk, first, 0);
      AttemptTraceCounts(host.value, port, connectOk, first, n);
      AttemptsFromFacts(connectOk, first, 0);
      var r := ConnectSpec(host, port, connectOk, first);
      assert r.ok == connectOk(first + n - 1) && r.attempts == n;
      assert r.effects == AttemptTrace(host.value, port, connectOk, first, n);
    } else {
      var none: seq<NetEffect> := [];
      assert none[..0] == [];
    }
  }

  // ---------------------------------------------------------------------
  // send
  // ---------------------------------------------------------------------

  datatype SendRun = SendRun(ok: bool, effects: seq<NetEffect>, client: bool)

  /**
   * The send policy: connect first when there is no client socket (failing
   * if that fails); write; after a failed write drop the socket, reconnect
   * once and write once more, whose failure is also caught.  Connection
   * attempts are numbered across both connects, writes by their order.
   */
  function SendSpec(hadClient: bool, host: Option<string>, port: int, m: Message,
                    connectOk: nat -> bool, writeOk: nat -> bool): SendRun
  {
    var c1 := if hadClient then ConnectRun(true, 0, []) else ConnectSpec(host, port, connectOk, 0);
    Assemble(c1, ConnectSpec(host, port, connectOk, c1.attempts), m, writeOk(0), writeOk(1))
  }

  /** A send given its first connect c1, its reconnect c2 and the two write outcomes. */
  function Assemble(c1: ConnectRun, c2: ConnectRun, m: Message, w0: bool, w1: bool): SendRun {
    if !c1.ok then SendRun(false, c1.effects, false)
    else
      var t := TransmitSpec(true, c2, m, w0, w1);
      SendRun(t.ok, c1.effects + t.effects, t.client)
  }

  /**
   * Writing with the socket in place: a failed write drops the socket,
   * reconnects (c2) and writes once more.  Without a socket nothing is sent.
   */
  function TransmitSpec(client: bool, c2: ConnectRun, m: Message, w0: bool, w1: bool): SendRun {
    if !client then SendRun(false, [], false)
    else if w0 then SendRun(true, [Write(m, true)], true)
    else if !c2.ok then SendRun(false, [Write(m, false)] + c2.effects, false)
    else SendRun(w1, [Write(m, false)] + c2.effects + [Write(m, w1)], true)
  }

  /** The counts ConnectBounds establishes for one connect. */
  predicate ConnectShaped(c: ConnectRun) {
    c.attempts <= MaxRetries && Count(c.effects, IsAttempt) == c.attempts
    && Count(c.effects, IsWrite) == 0 && Count(c.effects, IsGoodWrite) == 0
  }

  lemma CountSnoc(a: seq<NetEffect>, e: NetEffect, p: NetEffect -> bool)
    ensures Count(a + [e], p) == Count(a, p) + (if p(e) then 1 else 0)
  {
    assert (a + [e])[..|a|] == a;
  }

  lemma TransmitBounds(c2: ConnectRun, m: Message, w0: bool, w1: bool)
    requires ConnectShaped(c2)
    ensures var t := TransmitSpec(true, c2, m, w0, w1);
      Count(t.effects, IsWrite) <= 2
      && Count(t.effects, IsAttempt) <= MaxRetries
      && Count(t.effects, IsGoodWrite) == (if t.ok then 1 else 0)
      && (t.ok ==> t.client && t.effects != [] && t.effects[|t.effects| - 1] == Write(m, true))
  {
    var none: seq<NetEffect> := [];
    var pre := none + [Write(m, false)];
    assert pre == [Write(m, false)];
    CountSnoc(none, Write(m, false), IsWrite);
    CountSnoc(none, Write(m, false), IsGoodWrite);
    CountSnoc(none, Write(m, false), IsAttempt);
    CountSnoc(none, Write(m, true), IsWrite);
    CountSnoc(none, Write(m, true), IsGoodWrite);
    CountSnoc(none, Write(m, true), IsAttempt);
    assert none + [Write(m, true)] == [Write(m, true)];
    if !w0 {
      CountAppend(pre, c2.effects, IsWrite);
      CountAppend(pre, c2.effects, IsGoodWrite);
      CountAppend(pre, c2.effects, IsAttempt);
      if c2.ok {
        CountSnoc(pre + c2.effects, Write(m, w1), IsWrite);
        CountSnoc(pre + c2.effects, Write(m, w1), IsGoodWrite);
        CountSnoc(pre + c2.effects, Write(m, w1), IsAttempt);
      }
    }
  }

  lemma AssembleBounds(c1: ConnectRun, c2: ConnectRun, m: Message, w0: bool, w1: bool)
    requires ConnectShaped(c1) && ConnectShaped(c2)
    ensures var r := Assemble(c1, c2, m, w0, w1);
      Count(r.effects, IsWrite) <= 2
      && Count(r.effects, IsAttempt) <= 2 * MaxRetries
      && Count(r.effects, IsGoodWrite) == (if r.ok then 1 else 0)
      && (r.ok ==> r.client && r.effects != [] && r.effects[|r.effects| - 1] == Write(m, true))
    ensures !c1.ok ==> Count(Assemble(c1, c2, m, w0, w1).effects, IsWrite) == 0
  {
    if c1.ok {
      var t := TransmitSpec(true, c2, m, w0, w1);
      TransmitBounds(c2, m, w0, w1);
      CountAppend(c1.effects, t.effects, IsWrite);
      CountAppend(c1.effects, t.effects, IsGoodWrite);
      CountAppend(c1.effects, t.effects, IsAttempt);
    }
  }

  /**
   * A send writes at most twice and makes at most ten connection attempts;
   * it succeeds exactly when one write of the message went through, and
   * then that write is its last effect.  When the first connect fails
   * nothing is written; without a peer host nothing happens at all.
   */
  lemma SendBounds(hadClient: bool, host: Option<string>, port: int, m: Message,
                   connectOk: nat -> bool, writeOk: nat -> bool)
    ensures var r := SendSpec(hadClient, host, port, m, connectOk, writeOk);
      Count(r.effects, IsWrite) <= 2
      && Count(r.effects, IsAttempt) <= 2 * MaxRetries
      && Count(r.effects, IsGoodWrite) == (if r.ok then 1 else 0)
      && (r.ok ==> r.client && r.effects != [] && r.effects[|r.effects| - 1] == Write(m, true))
    ensures !hadClient && !ConnectSpec(host, port, connectOk, 0).ok ==>
      var r := SendSpec(hadClient, host, port, m, connectOk, writeOk);
      !r.ok && Count(r.effects, IsWrite) == 0
    ensures !HasHost(host) && !hadClient ==>
      SendSpec(hadClient, host, port, m, connectOk, writeOk) == SendRun(false, [], false)
  {
    var c1 := if hadClient then ConnectRun(true, 0, []) else ConnectSpec(host, port, connectOk, 0);
    var c2 := ConnectSpec(host, port, connectOk, c1.attempts);
    ConnectIsShaped(host, port, connectOk, 0);
    ConnectIsShaped(host, port, connectOk, c1.attempts);
    if hadClient {
      var none: seq<NetEffect> := [];
      assert Count(none, IsAttempt) == 0;
    }
    AssembleBounds(c1, c2, m, writeOk(0), writeOk(1));
  }

  lemma ConnectIsShaped(host: Option<string>, port: int, connectOk: nat -> bool, first: nat)
    ensures ConnectShaped(ConnectSpec(host, port, connectOk, first))
  {
    if HasHost(host) {
      AttemptTraceCounts(host.value, port, connectOk, first, AttemptsFrom(connectOk, first, 0));
    } else {
      var none: seq<NetEffect> := [];
      assert Count(none, IsAttempt) == 0;
    }
  }

  // ---------------------------------------------------------------------
  // stop
  // ---------------------------------------------------------------------

  /** The mutable part of a peer. */
  datatype NetState = NetState(queue: seq<Message>, client: bool, server: bool,
                               running: bool, trace: seq<NetEffect>)

  /** What `stop` makes of a state: closes whichever sockets exist. */
  function Stopped(s: NetState): (t: NetState)
    ensures !t.running && !t.client && !t.server && t.queue == s.queue
    ensures |t.trace| >= |s.trace| && t.trace[..|s.trace|] == s.trace
  {
    NetState(s.queue, false, false, false,
             s.trace + (if s.client then [CloseClient] else [])
                     + (if s.server then [CloseServer] else []))
  }

  /** Stopping twice is stopping once. */
  lemma StopIdempotent(s: NetState)
    ensures Stopped(Stopped(s)) == Stopped(s)
    ensures var t := Stopped(s); !t.running && !t.client && !t.server && t.queue == s.queue
  {
  }

  // ---------------------------------------------------------------------
  // The peer
  // ---------------------------------------------------------------------

  class P2PNetwork {
    const localPort: int
    const peerHost: Option<string>
    const peerPort: int

    var serverSocket: bool
    var clientSocket: bool
    var running: bool
    var messageQueue: seq<Message>
    var trace: seq<NetEffect>

    function State(): NetState
      reads this
    {
      NetState(messageQueue, clientSocket, serverSocket, running, trace)
    }

    constructor (localPort: int := 9998, peerHost: Option<string> := None, peerPort: int := 9998)
      ensures this.localPort == localPort && this.peerHost == peerHost && this.peerPort == peerPort
      ensures State() == NetState([], false, false, false, [])
    {
      this.localPort := localPort;
      this.peerHost := peerHost;
      this.peerPort := peerPort;
      serverSocket := false;
      clientSocket := false;
      running := false;
      messageQueue := [];
      trace := [];
    }

    /** Serve one incoming connection: queue each decoded payload. */
    method HandleClient(chunks: seq<Chunk>)
      modifies this`messageQueue
      ensures messageQueue == old(messageQueue) + (if running then Decoded(chunks) else [])
    {
      var i := 0;
      while running && i < |chunks|
        invariant 0 <= i <= |chunks|
        invariant running ==> messageQueue + Decoded(chunks[i..]) == old(messageQueue) + Decoded(chunks)
        invariant !running ==> messageQueue == old(messageQueue)
        decreases |chunks| - i
      {
        var c := chunks[i];
        assert chunks[i..][1..] == chunks[i + 1..];
        if Ends(c) {
          break;
        }
        if c.Payload? {
          messageQueue := messageQueue + [c.message];
        }
        i := i + 1;
      }
      if running && i == |chunks| {
        assert chunks[i..] == [];
      }
    }

    /** Try to connect to the peer, up to MaxRetries times. */
    method ConnectToPeer(connectOk: nat -> bool, first: nat) returns (ok: bool, attempts: nat)
      modifies this`clientSocket, this`trace
      ensures var r := ConnectSpec(peerHost, peerPort, connectOk, first);
        ok == r.ok && attempts == r.attempts && trace == old(trace) + r.effects
      ensures clientSocket == if attempts == 0 then old(clientSocket) else ok
    {
      if !HasHost(peerHost) {
        return false, 0;
      }
      var host := peerHost.value;
      var attempt: nat := 0;
      while true
        invariant attempt < MaxRetries
        invariant forall a :: first <= a < first + attempt ==> !connectOk(a)
        invariant AttemptsFrom(connectOk, first, attempt) == AttemptsFrom(connectOk, first, 0)
        invariant trace == old(trace) + AttemptTrace(host, peerPort, connectOk, first, attempt)
                           + (if attempt > 0 then [Sleep(RetryDelay)] else [])
        invariant attempt > 0 ==> !clientSocket
        decreases MaxRetries - attempt
      {
        var success := connectOk(first + attempt);
        clientSocket := success;
        AttemptTraceStep(host, peerPort, connectOk, first, attempt);
        trace := trace + [Attempt(host, peerPort, success)];
        assert trace == old(trace) + AttemptTrace(host, peerPort, connectOk, first, attempt + 1);
        if success {
          ConnectStops(peerHost, peerPort, connectOk, first, attempt);
          return true, attempt + 1;
        }
        if attempt < MaxRetries - 1 {
          AttemptsFromStep(connectOk, first, attempt);
          trace := trace + [Sleep(RetryDelay)];
        } else {
          ConnectStops(peerHost, peerPort, connectOk, first, attempt);
          return false, attempt + 1;
        }
        attempt := attempt + 1;
      }
    }

    /** Send one event with its data; true when a write went through. */
    method Send(event: EventArg, data: Json, now: real,
                connectOk: nat -> bool, writeOk: nat -> bool) returns (ok: bool)
      modifies this`clientSocket, this`trace
      ensures var r := SendSpec(old(clientSocket), peerHost, peerPort, Envelope(event, data, now),
                                connectOk, writeOk);
        ok == r.ok && trace == old(trace) + r.effects && clientSocket == r.client
    {
      var message := Envelope(event, data, now);
      var used := 0;
      if !clientSocket {
        var connected;
        connected, used := ConnectToPeer(connectOk, 0);
        if !connected {
          return false;
        }
      }
      ok := Transmit(message, used, connectOk, writeOk);
    }

    /** Write a message over the client socket, reconnecting once on failure. */
    method Transmit(message: Message, used: nat, connectOk: nat -> bool, writeOk: nat -> bool)
      returns (ok: bool)
      modifies this`clientSocket, this`trace
      ensures var t := TransmitSpec(old(clientSocket), ConnectSpec(peerHost, peerPort, connectOk, used),
                                    message, writeOk(0), writeOk(1));
        ok == t.ok && trace == old(trace) + t.effects && clientSocket == t.client
    {
      if !clientSocket {
        return false;
      }
      if writeOk(0) {
        trace := trace + [Write(message, true)];
        return true;
      }
      trace := trace + [Write(message, false)];
      clientSocket := false;
      var reconnected, _ := ConnectToPeer(connectOk, used);
      if !reconnected {
        return false;
      }
      ok := writeOk(1);
      trace := trace + [Write(message, ok)];
    }

    /** The first wanted message in the queue, if any. */
    method Scan(target: Option<string>) returns (found: Option<nat>)
      ensures found == FirstMatch(messageQueue, target)
    {
      var i := 0;
      while i < |messageQueue|
        invariant 0 <= i <= |messageQueue|
        invariant forall j :: 0 <= j < i ==> !Wanted(messageQueue[j], target)
      {
        if Wanted(messageQueue[i], target) {
          return Some(i);
        }
        i := i + 1;
      }
      return None;
    }

    /**
     * Wait for a message passing the filter.  `elapsed[k]` is the time since
     * the start read at the k-th deadline check, `arrivals[k]` what the
     * handlers queue during the k-th pause.
     */
    method Receive(event: Option<EventArg>, timeout: real, elapsed: seq<real>,
                   arrivals: seq<seq<Message>>) returns (msg: Option<Message>)
      requires ClockExpires(elapsed, timeout)
      modifies this`messageQueue
      ensures RecvRun(msg, messageQueue)
              == RecvSpec(old(messageQueue), TargetOf(event), timeout, elapsed, arrivals, 0)
    {
      var target := TargetOf(event);
      var k := 0;
      while k < |elapsed| && elapsed[k] < timeout
        invariant 0 <= k <= |elapsed|
        invariant RecvSpec(messageQueue, target, timeout, elapsed, arrivals, k)
                  == RecvSpec(old(messageQueue), target, timeout, elapsed, arrivals, 0)
        decreases |elapsed| - k
      {
        var found := Scan(target);
        if found.Some? {
          var i := found.value;
          RecvFound(messageQueue, target, timeout, elapsed, arrivals, k, i);
          msg := Some(messageQueue[i]);
          messageQueue := messageQueue[..i] + messageQueue[i + 1..];
          return;
        }
        RecvMiss(messageQueue, target, timeout, elapsed, arrivals, k);
        messageQueue := messageQueue + Batch(arrivals, k);
        k := k + 1;
      }
      msg := None;
    }

    /** Shut the peer down. */
    method Stop()
      modifies this`running, this`clientSocket, this`serverSocket, this`trace
      ensures State() == Stopped(old(State()))
    {
      running := false;
      if clientSocket {
        trace := trace + [CloseClient];
        clientSocket := false;
      }
      if serverSocket {
        trace := trace + [CloseServer];
        serverSocket := false;
      }
    }
  }
}
