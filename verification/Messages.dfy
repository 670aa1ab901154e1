/** Message inboxes: a bounded queue of message blocks per process, with senders waiting while it is full. */
module Messages {
  import opened Bytes
  import opened Processes

  const MAX_MESSAGES := 256
  const MAX_MSG_SIZE := 512
  const MAX_INBOXES := 32
  const MAX_BLOCKED_SENDERS := 16

  datatype SendResult = Refused | MustWait | Sent

  /** What happens to one inbox. */
  datatype Op =
    | OpOpen(mem: bool)
    | OpClose
    | OpSend(sender: nat, data: seq<byte>, mem: bool)
    | OpReceive(bufSize: nat)
    | OpDestroy

  predicate Sendable(data: seq<byte>) { 0 < |data| <= 512 }

  /** The list of waiting senders has room for sixteen; another one waits without being listed. */
  function Listed(waiters: seq<nat>, sender: nat): seq<nat> {
    if |waiters| < 16 then waiters + [sender] else waiters
  }

  // ---- what a run on one inbox should do ----

  datatype Letter = Letter(sender: nat, data: seq<byte>)

  /** An inbox as its users see it, and the states of all processes. */
  datatype View = View(made: bool, open: bool, queue: seq<Letter>, waiters: seq<nat>, status: map<nat, Status>)

  datatype Reply = Answered(result: SendResult) | Nothing | Got(data: seq<byte>, sender: nat)

  function Cut(data: seq<byte>, size: nat): seq<byte> {
    if |data| < size then data else data[..size]
  }

  function Woken(status: map<nat, Status>, pids: seq<nat>): map<nat, Status> {
    map q | q in status :: if q in pids && status[q] == Blocked then Ready else status[q]
  }

  /** One call at the inbox of process `p`. */
  function CallOne(v: View, p: nat, op: Op): (View, Reply) {
    match op
    case OpOpen(mem) => (if v.made || mem then v.(made := true, open := true) else v, Nothing)
    case OpClose => (v.(open := false), Nothing)
    case OpSend(s, data, mem) =>
      if !Sendable(data) || !v.open then (v, Answered(Refused))
      else if |v.queue| == 256 then
        (v.(waiters := Listed(v.waiters, s), status := v.status[s := Blocked]), Answered(MustWait))
      else if mem then
        (v.(queue := v.queue + [Letter(s, data)], status := Woken(v.status, [p])), Answered(Sent))
      else (v, Answered(Refused))
    case OpReceive(size) =>
      if v.queue == [] then (v, Nothing)
      else (v.(queue := v.queue[1..], waiters := [], status := Woken(v.status, v.waiters)),
            Got(Cut(v.queue[0].data, size), v.queue[0].sender))
    case OpDestroy => (View(false, false, [], [], Woken(v.status, v.waiters)), Nothing)
  }

  function Calls(v: View, p: nat, ops: seq<Op>): (r: (View, seq<Reply>))
    ensures |r.1| == |ops|
  {
    if ops == [] then (v, []) else
      var before := Calls(v, p, ops[..|ops| - 1]);
      var last := CallOne(before.0, p, ops[|ops| - 1]);
      (last.0, before.1 + [last.1])
  }

  /** The letters the inbox accepted, in order. */
  function Accepted(v: View, p: nat, ops: seq<Op>): seq<Letter> {
    if ops == [] then [] else
      var i := |ops| - 1;
      Accepted(v, p, ops[..i]) + AcceptedAt(Calls(v, p, ops[..i]).0, p, ops[i])
  }

  function AcceptedAt(now: View, p: nat, op: Op): seq<Letter> {
    if op.OpSend? && CallOne(now, p, op).1 == Answered(Sent) then [Letter(op.sender, op.data)] else []
  }

  /** How many letters were received, or freed with their inbox. */
  function Gone(v: View, p: nat, ops: seq<Op>): nat {
    if ops == [] then 0 else
      var i := |ops| - 1;
      Gone(v, p, ops[..i]) + GoneAt(Calls(v, p, ops[..i]).0, ops[i])
  }

  function GoneAt(now: View, op: Op): nat {
    match op
    case OpReceive(_) => if now.queue == [] then 0 else 1
    case OpDestroy => |now.queue|
    case _ => 0
  }

  /** No letter is lost, repeated or out of order: with all letters in the order of acceptance, the first ones have been
      received or freed with their inbox and the rest are in the queue. */
  lemma {:induction false} Conserved(v: View, p: nat, ops: seq<Op>)
    ensures var all, n := v.queue + Accepted(v, p, ops), Gone(v, p, ops);
            n <= |all| && Calls(v, p, ops).0.queue == all[n..]
  {
    if ops != [] {
      var i := |ops| - 1;
      Conserved(v, p, ops[..i]);
      var all, n, now := v.queue + Accepted(v, p, ops[..i]), Gone(v, p, ops[..i]), Calls(v, p, ops[..i]).0;
      ConservedStep(all, n, now, p, ops[i]);
      assert v.queue + Accepted(v, p, ops) == all + AcceptedAt(now, p, ops[i]);
    }
  }

  lemma ConservedStep(all: seq<Letter>, n: nat, now: View, p: nat, op: Op)
    requires n <= |all| && now.queue == all[n..]
    ensures n + GoneAt(now, op) <= |all|
    ensures CallOne(now, p, op).0.queue == (all + AcceptedAt(now, p, op))[n + GoneAt(now, op)..]
  {
    var x := AcceptedAt(now, p, op);
    assert (all + x)[n..] == all[n..] + x;
  }

  lemma {:induction false} LogAt(v: View, p: nat, ops: seq<Op>, i: nat)
    requires i < |ops|
    ensures Calls(v, p, ops).1[i] == CallOne(Calls(v, p, ops[..i]).0, p, ops[i]).1
    decreases |ops|
  {
    var m := |ops| - 1;
    if i < m {
      LogAt(v, p, ops[..m], i);
      assert ops[..m][..i] == ops[..i];
    }
  }

  lemma {:induction false} AcceptedGrows(v: View, p: nat, ops: seq<Op>, i: nat)
    requires i <= |ops|
    ensures Accepted(v, p, ops[..i]) <= Accepted(v, p, ops)
    decreases |ops|
  {
    if i < |ops| {
      AcceptedGrows(v, p, ops[..|ops| - 1], i);
      assert ops[..|ops| - 1][..i] == ops[..i];
    } else {
      assert ops[..i] == ops;
    }
  }

  /** Each call's reply: a receive gets the next letter in the order of acceptance, cut to its buffer, and nothing
      exactly when the queue is empty. */
  lemma ReplyIs(v: View, p: nat, ops: seq<Op>, i: nat)
    requires i < |ops|
    ensures var now, n := Calls(v, p, ops[..i]).0, Gone(v, p, ops[..i]);
            var all := v.queue + Accepted(v, p, ops);
            && (now.queue != [] ==> n < |all|)
            && Calls(v, p, ops).1[i] ==
               match ops[i]
               case OpReceive(size) => if now.queue == [] then Nothing else Got(Cut(all[n].data, size), all[n].sender)
               case _ => CallOne(now, p, ops[i]).1
  {
    LogAt(v, p, ops, i);
    Conserved(v, p, ops[..i]);
    AcceptedGrows(v, p, ops, i);
    var n, queue := Gone(v, p, ops[..i]), Calls(v, p, ops[..i]).0.queue;
    assert queue != [] ==> queue[0] == (v.queue + Accepted(v, p, ops[..i]))[n] == (v.queue + Accepted(v, p, ops))[n];
  }

  /** Who is woken: a process that waits for room in another one's inbox is READY again at the end of a run it takes no
      part in exactly when it was listed and something was received or the inbox destroyed. */
  lemma {:induction false} WokenExactly(v: View, p: nat, ops: seq<Op>, s: nat)
    requires s in v.status && v.status[s] == Blocked && s != p
    requires v.waiters != [] ==> |v.queue| == 256
    requires forall i | 0 <= i < |ops| && ops[i].OpSend? :: ops[i].sender != s
    ensures var w := Calls(v, p, ops).0;
            && s in w.status && (w.waiters != [] ==> |w.queue| == 256)
            && w.status[s] == (if s in v.waiters && Frees(ops) then Ready else Blocked)
            && (s in w.waiters <==> s in v.waiters && !Frees(ops))
  {
    if ops != [] {
      var i := |ops| - 1;
      WokenExactly(v, p, ops[..i], s);
      FreesLast(ops);
    }
  }

  // ---- a sender that nobody wakes ----

  const RECEIVER := MAX_BLOCKED_SENDERS + 3

  /** Process 1 fills the inbox, then processes 2, 3, 4 and so on want to send. */
  function Burst(n: nat): seq<Op> {
    if n == 0 then [] else Burst(n - 1) + [BurstOp(n)]
  }

  function BurstOp(n: nat): Op {
    OpSend(if n <= MAX_MESSAGES then 1 else n - MAX_MESSAGES + 1, [0], true)
  }

  ghost predicate AfterBurst(v: View, n: nat) {
    && v.made && v.open && |v.queue| == (if n < MAX_MESSAGES then n else MAX_MESSAGES)
    && |v.waiters| == (if n <= MAX_MESSAGES then 0
                       else if n - MAX_MESSAGES < MAX_BLOCKED_SENDERS then n - MAX_MESSAGES
                       else MAX_BLOCKED_SENDERS)
    && (forall w | w in v.waiters :: w <= MAX_BLOCKED_SENDERS + 1 && w <= n - MAX_MESSAGES + 1)
    && (n > MAX_MESSAGES ==> var s := n - MAX_MESSAGES + 1; s in v.status && v.status[s] == Blocked)
  }

  lemma BurstStep(v: View, n: nat)
    requires 0 < n <= MAX_MESSAGES + MAX_BLOCKED_SENDERS + 1 && AfterBurst(v, n - 1)
    ensures AfterBurst(CallOne(v, RECEIVER, BurstOp(n)).0, n)
  {
  }

  lemma {:induction false} BurstIs(v: View, n: nat)
    requires n <= MAX_MESSAGES + MAX_BLOCKED_SENDERS + 1 && AfterBurst(v, 0)
    ensures AfterBurst(Calls(v, RECEIVER, Burst(n)).0, n)
  {
    if n > 0 {
      BurstIs(v, n - 1);
      BurstLength(n - 1);
      assert Burst(n)[..n - 1] == Burst(n - 1);
      BurstStep(Calls(v, RECEIVER, Burst(n - 1)).0, n);
    }
  }

  lemma BurstLength(n: nat)
    ensures |Burst(n)| == n
  {
  }

  /** The list has no place for the seventeenth waiting sender: nothing that happens to the inbox afterwards wakes it,
      not even its destruction. */
  lemma SeventeenthForgotten(status: map<nat, Status>, ops: seq<Op>)
    requires forall i | 0 <= i < |ops| && ops[i].OpSend? :: ops[i].sender != 18
    ensures var n, s := 256 + 16 + 1, 18;
            var v := Calls(View(true, true, [], [], status), RECEIVER, Burst(n)).0;
            var w := Calls(v, RECEIVER, ops).0;
            s in w.status && w.status[s] == Blocked
  {
    var n, s := 256 + 16 + 1, 18;
    BurstIs(View(true, true, [], [], status), n);
    WokenExactly(Calls(View(true, true, [], [], status), RECEIVER, Burst(n)).0, RECEIVER, ops, s);
  }

  ghost predicate Frees(ops: seq<Op>) {
    exists i :: 0 <= i < |ops| && (ops[i].OpReceive? || ops[i].OpDestroy?)
  }

  lemma FreesLast(ops: seq<Op>)
    requires ops != []
    ensures Frees(ops) <==> Frees(ops[..|ops| - 1]) || ops[|ops| - 1].OpReceive? || ops[|ops| - 1].OpDestroy?
  {
    var n := |ops| - 1;
    if Frees(ops) {
      var i :| 0 <= i < |ops| && (ops[i].OpReceive? || ops[i].OpDestroy?);
      assert i < n ==> ops[..n][i] == ops[i];
    }
    if Frees(ops[..n]) {
      var i :| 0 <= i < n && (ops[..n][i].OpReceive? || ops[..n][i].OpDestroy?);
      assert ops[i] == ops[..n][i];
    }
  }

  /** A message block, filled in once. */
  class Message {
    const sender: nat
    const receiver: nat
    const data: seq<byte>

    constructor (sender: nat, receiver: nat, data: seq<byte>)
      ensures this.sender == sender && this.receiver == receiver && this.data == data
    {
      this.sender, this.receiver, this.data := sender, receiver, data;
    }
  }

  class Port {
    var isOpen: bool
    var count: nat
    const messages: array<Message?>
    var waiters: seq<nat>   // the pids of blocked senders

    constructor ()
      ensures isOpen && count == 0 && waiters == [] && fresh(messages)
      ensures messages.Length == MAX_MESSAGES && forall i | 0 <= i < MAX_MESSAGES :: messages[i] == null
    {
      isOpen, count, waiters := true, 0, [];
      messages := new Message?[MAX_MESSAGES](_ => null);
    }

    /** The queue is the first `count` entries: blocks, no two alike, and nothing after them. */
    ghost predicate Ok()
      reads this, messages
    {
      && messages.Length == MAX_MESSAGES && count <= MAX_MESSAGES && |waiters| <= MAX_BLOCKED_SENDERS
      && (forall i | 0 <= i < count :: messages[i] != null)
      && (forall i | count <= i < MAX_MESSAGES :: messages[i] == null)
      && (forall i, j | 0 <= i < j < count :: messages[i] != messages[j])
      && (waiters != [] ==> count == MAX_MESSAGES)
    }

    /** Drop the first block and close up. */
    method Shift()
      requires messages.Length == MAX_MESSAGES && 0 < count <= MAX_MESSAGES
      requires forall i | count <= i < MAX_MESSAGES :: messages[i] == null
      modifies this`count, messages
      ensures count == old(count) - 1
      ensures forall k | 0 <= k < count :: messages[k] == old(messages[k + 1])
      ensures forall k | count <= k < MAX_MESSAGES :: messages[k] == null
    {
      count := count - 1;
      var i := 0;
      while i < count
        modifies messages
        invariant 0 <= i <= count == old(count) - 1
        invariant forall k | 0 <= k < i :: messages[k] == old(messages[k + 1])
        invariant forall k | i <= k < MAX_MESSAGES :: messages[k] == old(messages[k])
      {
        messages[i] := messages[i + 1];
        i := i + 1;
      }
      messages[count] := null;
    }

    ghost function Queue(): seq<Message?>
      reads this, messages
    {
      if count <= messages.Length then messages[..count] else []
    }
  }

  /** The port of process `p`. */
  class Ipc {
    var endpoints: seq<Port?>
    var live: set<Message>             // the blocks the allocator has handed out and not got back
    var status: map<nat, Status>
    ghost var queues: seq<seq<Message>>   // per inbox, the messages accepted and not yet received, oldest first

    ghost function Ports(): set<Port?>
      reads this
    {
      set i | 0 <= i < |endpoints| :: endpoints[i]
    }

    ghost function Arrays(): set<array<Message?>>
      reads this
    {
      set i | 0 <= i < |endpoints| && endpoints[i] != null :: endpoints[i].messages
    }

    ghost predicate PortOk(p: nat)
      requires p < |endpoints| == |queues|
      reads this, Ports(), Arrays()
    {
      var e := endpoints[p];
      if e == null then queues[p] == []
      else
        && e.Ok() && e.count == |queues[p]|
        && forall i | 0 <= i < e.count ::
           e.messages[i] == queues[p][i] && queues[p][i] in live && queues[p][i].receiver == p
    }

    /** Ports are not shared. */
    ghost predicate PortsApart(p: nat, q: nat)
      requires p < |endpoints| && q < |endpoints|
      reads this
    {
      p != q && endpoints[p] != null && endpoints[q] != null ==>
        endpoints[p] != endpoints[q] && endpoints[p].messages != endpoints[q].messages
    }

    /** A block that has not been freed is queued. */
    ghost predicate Queued(m: Message)
      reads this, Ports(), Arrays()
    {
      m.receiver < |endpoints| && endpoints[m.receiver] != null && m in endpoints[m.receiver].Queue()
    }

    ghost predicate Inv()
      reads this, Ports(), Arrays()
    {
      && |endpoints| == |queues| == MAX_INBOXES
      && (forall p {:trigger PortOk(p)} | 0 <= p < MAX_INBOXES :: PortOk(p))
      && (forall p, q {:trigger PortsApart(p, q)} | 0 <= p < MAX_INBOXES && 0 <= q < MAX_INBOXES :: PortsApart(p, q))
      && (forall m {:trigger m in live} | m in live :: Queued(m))
    }

    constructor (s: map<nat, Status>)
      ensures Inv() && live == {} && status == s
    {
      endpoints := seq(MAX_INBOXES, i => null);
      live, status := {}, s;
      queues := seq(MAX_INBOXES, i => []);
    }

    predicate IsOpen(p: nat)
      reads this, Ports()
    {
      p < |endpoints| && endpoints[p] != null && endpoints[p].isOpen
    }

    function Waiting(p: nat): seq<nat>
      reads this, Ports()
    {
      if p < |endpoints| && endpoints[p] != null then endpoints[p].waiters else []
    }

    // ---- waking ----

    /** `wake_waiters`: every listed sender that is blocked becomes ready, and the list is emptied. */
    method WakeWaiters(e: Port)
      modifies this`status, e`waiters
      ensures e.waiters == [] && status.Keys == old(status.Keys)
      ensures forall p | p in status ::
                status[p] == if p in old(e.waiters) && old(status)[p] == Blocked then Ready else old(status)[p]
    {
      var i := 0;
      while i < |e.waiters|
        invariant 0 <= i <= |e.waiters| && e.waiters == old(e.waiters) && status.Keys == old(status.Keys)
        invariant forall p | p in status ::
                    status[p] == if p in old(e.waiters)[..i] && old(status)[p] == Blocked then Ready else old(status)[p]
      {
        var w := e.waiters[i];
        assert e.waiters[..i + 1] == e.waiters[..i] + [w];
        if w in status && status[w] == Blocked {
          status := status[w := Ready];
        }
        i := i + 1;
      }
      assert e.waiters[..i] == e.waiters;
      e.waiters := [];
    }

    // ---- opening and closing ----

    /** `open_inbox`: reopen the port, or make an empty one if memory allows. */
    method Open(p: nat, mem: bool)
      requires Inv()
      modifies this`endpoints, if p < |endpoints| then {endpoints[p]} else {}
      ensures Inv() && live == old(live) && queues == old(queues)
      ensures p < 32 && (mem || old(endpoints)[p] != null) ==> endpoints[p] != null && endpoints[p].isOpen
      ensures p < 32 && old(endpoints)[p] == null && !mem ==> endpoints == old(endpoints)
      ensures p < 32 && old(endpoints)[p] == null && mem ==>
        fresh(endpoints[p]) && fresh(endpoints[p].messages)
      ensures Waiting(p) == old(Waiting(p))
      ensures forall q | 0 <= q < 32 && (q != p || old(endpoints)[q] != null) ::
        endpoints[q] == old(endpoints)[q]
    {
      if p >= MAX_INBOXES {
        return;
      }
      assert PortOk(p);
      if endpoints[p] != null {
        endpoints[p].isOpen := true;
        PortsStay();
        return;
      }
      if mem {
        var e := new Port();
        endpoints := endpoints[p := e];
        OpenedOk(p);
      }
    }

    twostate lemma OpenedOk(new p: nat)
      requires old(Inv()) && p < MAX_INBOXES && |endpoints| == MAX_INBOXES && old(endpoints)[p] == null
      requires queues == old(queues) && live == old(live)
      requires var e := endpoints[p]; e != null && fresh(e) && fresh(e.messages) && e.Ok() && e.count == 0
      requires endpoints == old(endpoints)[p := endpoints[p]]
      requires forall q | 0 <= q < MAX_INBOXES && old(endpoints)[q] != null ::
                 unchanged(endpoints[q]) && unchanged(endpoints[q].messages)
      ensures Inv()
    {
      forall q | 0 <= q < MAX_INBOXES ensures PortOk(q) { assert old(PortOk(q)); }
      forall q, r | 0 <= q < MAX_INBOXES && 0 <= r < MAX_INBOXES ensures PortsApart(q, r) {
        assert old(PortsApart(q, r));
      }
      forall m | m in live ensures Queued(m) { assert old(Queued(m)); }
    }

    /** Opening and closing flags, process states and waiters do not matter to the queues. */
    twostate lemma PortsStay()
      requires old(Inv()) && endpoints == old(endpoints) && queues == old(queues) && live == old(live)
      requires forall q | 0 <= q < MAX_INBOXES && endpoints[q] != null ::
                 endpoints[q].count == old(endpoints[q].count) && unchanged(endpoints[q].messages)
                 && (endpoints[q].waiters == old(endpoints[q].waiters) || endpoints[q].waiters == []
                     || (endpoints[q].count == MAX_MESSAGES && |endpoints[q].waiters| <= MAX_BLOCKED_SENDERS))
      ensures Inv()
    {
      forall q | 0 <= q < MAX_INBOXES ensures PortOk(q) { assert old(PortOk(q)); }
      forall q, r | 0 <= q < MAX_INBOXES && 0 <= r < MAX_INBOXES ensures PortsApart(q, r) {
        assert old(PortsApart(q, r));
      }
      forall m | m in live ensures Queued(m) {
        assert old(Queued(m));
        assert endpoints[m.receiver].Queue() == old(endpoints[m.receiver].Queue());
      }
    }

    /** `close_inbox`. */
    method Close(p: nat)
      requires Inv()
      modifies (if p < |endpoints| then {endpoints[p]} else {})`isOpen
      ensures Inv() && !IsOpen(p)
    {
      if p < MAX_INBOXES && endpoints[p] != null {
        assert PortOk(p);
        endpoints[p].isOpen := false;
        PortsStay();
      }
    }

    // ---- send_msg ----

    /** Put a new block at the end of the queue of a port that has room. */
    method Enqueue(p: nat, e: Port, m: Message)
      requires Inv() && p < MAX_INBOXES && endpoints[p] == e && e.count < MAX_MESSAGES
      requires m !in live && m.receiver == p
      modifies this`live, this`queues, e`count, e.messages
      ensures Inv() && live == old(live) + {m} && queues == old(queues)[p := old(queues)[p] + [m]]
    {
      assert PortOk(p);
      live := live + {m};
      e.messages[e.count] := m;
      e.count := e.count + 1;
      queues := queues[p := queues[p] + [m]];
      forall q | 0 <= q < MAX_INBOXES ensures PortOk(q) { assert old(PortOk(q)) && old(PortsApart(p, q)); }
      forall q, r | 0 <= q < MAX_INBOXES && 0 <= r < MAX_INBOXES ensures PortsApart(q, r) {
        assert old(PortsApart(q, r));
      }
      assert e.messages[e.count - 1] == m;
      assert e.messages[..e.count] == old(e.messages[..e.count]) + [m];
      forall x | x in live ensures Queued(x) {
        assert x != m ==> old(Queued(x)) && old(PortsApart(p, x.receiver));
      }
    }

    /** Wake process `p` if it is blocked. */
    method Wake(p: nat)
      requires Inv()
      modifies this`status
      ensures Inv() && status == if p in old(status) && old(status)[p] == Blocked then old(status)[p := Ready]
              else old(status)
    {
      if p in status && status[p] == Blocked {
        status := status[p := Ready];
        PortsStay();
      }
    }

    /** The queue is full: put the sender on the list, if there is room, and block it. */
    method Wait(sender: nat, p: nat, e: Port)
      requires Inv() && p < MAX_INBOXES && endpoints[p] == e && e.count == MAX_MESSAGES
      modifies this`status, e`waiters
      ensures Inv() && status == old(status)[sender := Blocked]
      ensures e.waiters == if |old(e.waiters)| < 16 then old(e.waiters) + [sender] else old(e.waiters)
    {
      assert PortOk(p);
      if |e.waiters| < MAX_BLOCKED_SENDERS {
        e.waiters := e.waiters + [sender];
      }
      status := status[sender := Blocked];
      forall q | 0 <= q < MAX_INBOXES && endpoints[q] != null ensures endpoints[q] == e <==> q == p {
        assert old(PortsApart(p, q));
      }
      PortsStay();
    }

    /** One round of `send_msg`: refuse, wait for room, or queue the message and wake its receiver. */
    method Send(sender: nat, p: nat, data: seq<byte>, mem: bool) returns (r: SendResult, m: Message?)
      requires Inv() && sender in status
      modifies this`status, this`live, this`queues, if p < |endpoints| then {endpoints[p]} else {},
               if p < |endpoints| && endpoints[p] != null then {endpoints[p].messages} else {}
      ensures Inv() && status.Keys == old(status.Keys)
      ensures r == (if !Sendable(data) || !old(IsOpen(p)) then Refused
                    else if |old(queues)[p]| == 256 then MustWait
                    else if mem then Sent else Refused)
      ensures IsOpen(p) == old(IsOpen(p)) && (r != MustWait ==> Waiting(p) == old(Waiting(p)))
      ensures r == Refused ==> queues == old(queues) && live == old(live) && status == old(status)
      ensures r == MustWait ==>
        && queues == old(queues) && live == old(live) && status == old(status)[sender := Blocked]
        && Waiting(p) == Listed(old(Waiting(p)), sender)
      ensures r == Sent ==>
        && m != null && fresh(m) && m.sender == sender && m.receiver == p && m.data == data
        && live == old(live) + {m} && queues == old(queues)[p := old(queues)[p] + [m]]
        && status == if p in old(status) && old(status)[p] == Blocked then old(status)[p := Ready] else old(status)
    {
      m := null;
      if |data| == 0 || |data| > MAX_MSG_SIZE {
        return Refused, m;
      }
      if p >= MAX_INBOXES {
        return Refused, m;
      }
      var e := endpoints[p];
      if e == null || !e.isOpen {
        return Refused, m;
      }
      assert PortOk(p);
      if e.count >= MAX_MESSAGES {
        Wait(sender, p, e);
        return MustWait, m;
      }
      if !mem {
        return Refused, m;
      }
      label Checked:
      m := new Message(sender, p, data);
      PortsStay@Checked();
      Enqueue(p, e, m);
      Wake(p);
      r := Sent;
    }

    // ---- receive_async_msg ----

    twostate lemma DequeuedOk(new p: nat, new m: Message, e: Port)
      requires old(Inv()) && p < MAX_INBOXES && endpoints == old(endpoints) && endpoints[p] == e && old(queues[p]) != []
      requires m == old(queues[p])[0] && queues == old(queues)[p := old(queues[p])[1..]] && live == old(live) - {m}
      requires e.Ok() && e.waiters == [] && e.count == old(e.count) - 1 < MAX_MESSAGES
      requires forall k | 0 <= k < e.count :: e.messages[k] == old(e.messages[k + 1])
      requires forall q | 0 <= q < MAX_INBOXES && q != p && endpoints[q] != null ::
                 unchanged(endpoints[q]) && unchanged(endpoints[q].messages)
      ensures Inv()
    {
      assert old(PortOk(p)) && old(e.Ok());
      forall i | 0 <= i < e.count ensures e.messages[i] == queues[p][i] && queues[p][i] != m {
        assert e.messages[i] == old(e.messages[i + 1]) == old(queues[p])[i + 1] == queues[p][i];
        assert old(e.messages[0]) == m && old(e.messages[0]) != old(e.messages[i + 1]);
      }
      assert PortOk(p);
      forall q | 0 <= q < MAX_INBOXES && q != p ensures PortOk(q) { assert old(PortOk(q)); }
      forall q, r | 0 <= q < MAX_INBOXES && 0 <= r < MAX_INBOXES ensures PortsApart(q, r) {
        assert old(PortsApart(q, r));
      }
      forall x | x in live ensures Queued(x) {
        assert old(Queued(x));
        if x.receiver == p {
          var k :| 0 <= k < old(e.count) && old(e.messages[k]) == x;
          assert k > 0;
          assert e.messages[k - 1] == x;
        }
      }
    }

    /** Take the first block off the queue and free it. */
    method Dequeue(p: nat, e: Port) returns (m: Message)
      requires Inv() && p < MAX_INBOXES && endpoints[p] == e && queues[p] != []
      modifies this`live, this`queues, e`count, e`waiters, e.messages, this`status
      ensures Inv() && queues == old(queues)[p := old(queues[p])[1..]] && m == old(queues[p])[0]
              && live == old(live) - {m}
      ensures e.waiters == []
      ensures status.Keys == old(status.Keys)
      ensures forall q | q in status ::
        status[q] == if q in old(e.waiters) && old(status)[q] == Blocked then Ready else old(status)[q]
    {
      assert PortOk(p);
      assert e.messages[0] == queues[p][0];
      m := e.messages[0];
      e.Shift();
      live := live - {m};
      queues := queues[p := queues[p][1..]];
      if |e.waiters| > 0 {
        WakeWaiters(e);
      }
      forall q | 0 <= q < MAX_INBOXES && q != p && endpoints[q] != null
        ensures endpoints[q] != e && endpoints[q].messages != e.messages
      {
        assert old(PortsApart(p, q));
      }
      DequeuedOk(p, m, e);
    }

    /** `receive_async_msg`: the oldest message, cut to the buffer; every sender that waited for room is woken. */
    method Receive(p: nat, buf: array<byte>, bufSize: nat) returns (n: int, sender: nat)
      requires Inv() && bufSize <= buf.Length
      modifies this`live, this`queues, this`status, buf, if p < |endpoints| then {endpoints[p]} else {},
               if p < |endpoints| && endpoints[p] != null then {endpoints[p].messages} else {}
      ensures Inv() && status.Keys == old(status.Keys)
      ensures n == -1 <==> p >= 32 || old(queues[p]) == []
      ensures n == -1 ==> queues == old(queues) && live == old(live) && status == old(status) && buf[..] == old(buf[..])
                          && Waiting(p) == old(Waiting(p))
      ensures IsOpen(p) == old(IsOpen(p))
      ensures n != -1 ==>
        var m := old(queues[p])[0];
        && queues == old(queues)[p := old(queues[p])[1..]] && live == old(live) - {m} && sender == m.sender
        && n == (if |m.data| < bufSize then |m.data| else bufSize)
        && buf[..] == Splice(old(buf[..]), 0, m.data[..n])
        && endpoints[p] != null && endpoints[p].waiters == []
        && forall w | w in status ::
             status[w] == if w in old(endpoints[p].waiters) && old(status)[w] == Blocked then Ready else old(status)[w]
    {
      if p >= MAX_INBOXES {
        return -1, 0;
      }
      var e := endpoints[p];
      assert PortOk(p);
      if e == null || e.count <= 0 {
        return -1, 0;
      }
      var m := Dequeue(p, e);
      n := if |m.data| < bufSize then |m.data| else bufSize;
      label Taken:
      Memcpy(buf, 0, m.data[..n]);
      PortsStay@Taken();
      sender := m.sender;
    }

    // ---- destroy_endpoint ----

    /** Give every queued block back. */
    method FreeAll(e: Port)
      requires e.Ok()
      modifies e.messages, this`live
      ensures forall k | 0 <= k < MAX_MESSAGES :: e.messages[k] == null
      ensures forall m :: m in live <==> m in old(live) && m !in old(e.Queue())
    {
      ghost var all := e.Queue();
      var i := 0;
      while i < e.count
        modifies e.messages, this`live
        invariant 0 <= i <= e.count
        invariant forall k | 0 <= k < i :: e.messages[k] == null
        invariant forall k | i <= k < MAX_MESSAGES :: e.messages[k] == old(e.messages[k])
        invariant forall m :: m in live <==> m in old(live) && m !in all[..i]
      {
        if e.messages[i] != null {
          assert e.messages[i] == all[i];
          live := live - {e.messages[i]};
          e.messages[i] := null;
        }
        i := i + 1;
      }
      assert all[..i] == all;
    }

    /** Free every queued block, wake the senders, and drop the port. */
    method Destroy(p: nat)
      requires Inv()
      modifies this`endpoints, this`live, this`queues, this`status, if p < |endpoints| then {endpoints[p]} else {},
               if p < |endpoints| && endpoints[p] != null then {endpoints[p].messages} else {}
      ensures Inv()
      ensures p >= MAX_INBOXES ==>
        endpoints == old(endpoints) && queues == old(queues) && live == old(live) && status == old(status)
      ensures p < MAX_INBOXES ==> endpoints == old(endpoints)[p := null] && queues == old(queues)[p := []]
      ensures p < MAX_INBOXES ==> forall m :: m in live <==> m in old(live) && m.receiver != p
      ensures p < MAX_INBOXES && old(endpoints)[p] == null ==> status == old(status)
      ensures p < MAX_INBOXES && old(endpoints)[p] != null ==>
        && status.Keys == old(status.Keys)
        && forall w | w in status ::
             status[w] == if w in old(endpoints[p].waiters) && old(status)[w] == Blocked then Ready else old(status)[w]
    {
      if p >= MAX_INBOXES {
        return;
      }
      var e := endpoints[p];
      assert PortOk(p);
      if e == null {
        assert forall m | m in live :: Queued(m) && m.receiver != p;
        return;
      }
      Close(p);
      FreeAll(e);
      e.count := 0;
      WakeWaiters(e);
      forall q | 0 <= q < MAX_INBOXES && q != p && endpoints[q] != null
        ensures endpoints[q] != e && endpoints[q].messages != e.messages
      {
        assert old(PortsApart(p, q));
      }
      endpoints := endpoints[p := null];
      queues := queues[p := []];
      DestroyedOk(e, p);
    }

    twostate lemma DestroyedOk(e: Port, new p: nat)
      requires old(Inv()) && p < MAX_INBOXES && old(endpoints)[p] == e && endpoints == old(endpoints)[p := null]
      requires queues == old(queues)[p := []]
      requires forall m :: m in live <==> m in old(live) && m !in old(e.Queue())
      requires forall q | 0 <= q < MAX_INBOXES && q != p && endpoints[q] != null ::
                 unchanged(endpoints[q]) && unchanged(endpoints[q].messages)
      ensures Inv() && forall m | m in live :: m.receiver != p
      ensures forall m | m in old(live) && m.receiver != p :: m in live
    {
      assert old(PortOk(p));
      forall q | 0 <= q < MAX_INBOXES ensures PortOk(q) { assert old(PortOk(q)); }
      forall q, r | 0 <= q < MAX_INBOXES && 0 <= r < MAX_INBOXES ensures PortsApart(q, r) {
        assert old(PortsApart(q, r));
      }
      forall m | m in live ensures Queued(m) { assert old(Queued(m)); }
    }

    // ---- whole runs ----

    /** What the invariant says of an inbox: a bounded queue of distinct blocks, which are exactly the blocks not
        yet freed that were sent to it; senders are listed only while it is full. */
    lemma Inbox(p: nat)
      requires Inv() && p < MAX_INBOXES && endpoints[p] != null
      ensures var e := endpoints[p];
              && e.count <= MAX_MESSAGES == e.messages.Length && e.Queue() == queues[p]
              && (forall i, j | 0 <= i < j < e.count :: e.messages[i] != null && e.messages[i] != e.messages[j])
              && (forall i | e.count <= i < MAX_MESSAGES :: e.messages[i] == null)
              && (forall m | m in live && m.receiver == p :: m in queues[p])
              && (forall m | m in queues[p] :: m in live && m.receiver == p)
              && (e.waiters != [] ==> |queues[p]| == MAX_MESSAGES)
    {
      assert PortOk(p);
      forall m | m in live && m.receiver == p ensures m in queues[p] { assert Queued(m); }
      assert endpoints[p].Queue() == queues[p];
    }

    ghost function Letters(p: nat): (r: seq<Letter>)
      requires p < |queues|
      reads this
      ensures |r| == |queues[p]|
      ensures forall i | 0 <= i < |r| :: r[i] == Letter(queues[p][i].sender, queues[p][i].data)
    {
      var q := queues[p];
      seq(|q|, i requires 0 <= i < |q| => Letter(q[i].sender, q[i].data))
    }

    ghost function Seen(p: nat): View
      requires p < |queues| == |endpoints|
      reads this, Ports()
    {
      View(endpoints[p] != null, IsOpen(p), Letters(p), Waiting(p), status)
    }

    method SendCall(p: nat, op: Op) returns (r: Reply)
      requires Inv() && p < MAX_INBOXES && op.OpSend? && op.sender in status
      modifies this`status, this`live, this`queues, endpoints[p],
               if endpoints[p] != null then {endpoints[p].messages} else {}
      ensures Inv() && status.Keys == old(status.Keys) && (Seen(p), r) == CallOne(old(Seen(p)), p, op)
    {
      var x, m := Send(op.sender, p, op.data, op.mem);
      r := Answered(x);
      ghost var now := CallOne(old(Seen(p)), p, op).0;
      assert Letters(p) == now.queue && status == now.status;
    }

    method ReceiveCall(p: nat, op: Op, buf: array<byte>) returns (r: Reply)
      requires Inv() && p < MAX_INBOXES && op.OpReceive? && op.bufSize <= buf.Length
      modifies this`status, this`live, this`queues, buf, endpoints[p],
               if endpoints[p] != null then {endpoints[p].messages} else {}
      ensures Inv() && status.Keys == old(status.Keys) && (Seen(p), r) == CallOne(old(Seen(p)), p, op)
    {
      var n, s := Receive(p, buf, op.bufSize);
      if n == -1 {
        r := Nothing;
        assert Letters(p) == old(Letters(p));
      } else {
        r := Got(buf[..n], s);
        assert Letters(p) == old(Letters(p))[1..];
        assert status == Woken(old(status), old(Waiting(p)));
        assert buf[..n] == Cut(old(queues[p][0].data), op.bufSize);
      }
    }

    method DestroyCall(p: nat)
      requires Inv() && p < MAX_INBOXES
      modifies this`endpoints, this`live, this`queues, this`status, endpoints[p],
               if endpoints[p] != null then {endpoints[p].messages} else {}
      ensures Inv() && status.Keys == old(status.Keys) && endpoints == old(endpoints)[p := null]
      ensures Seen(p) == CallOne(old(Seen(p)), p, OpDestroy).0
    {
      assert PortOk(p);
      Destroy(p);
      assert Letters(p) == [];
      assert status == Woken(old(status), old(Waiting(p)));
    }

    /** One call. */
    method Call(p: nat, op: Op, buf: array<byte>) returns (r: Reply)
      requires Inv() && p < MAX_INBOXES && (op.OpSend? ==> op.sender in status)
      requires op.OpReceive? ==> op.bufSize <= buf.Length
      modifies this, buf, endpoints[p], if endpoints[p] != null then {endpoints[p].messages} else {}
      ensures Inv() && status.Keys == old(status.Keys) && (Seen(p), r) == CallOne(old(Seen(p)), p, op)
      ensures endpoints[p] == null || endpoints[p] == old(endpoints[p])
              || (fresh(endpoints[p]) && fresh(endpoints[p].messages))
    {
      r := Nothing;
      match op {
        case OpOpen(mem) =>
          Open(p, mem);
          assert Letters(p) == old(Letters(p));
        case OpClose =>
          Close(p);
          assert Letters(p) == old(Letters(p));
        case OpSend(_, _, _) => r := SendCall(p, op);
        case OpReceive(_) => r := ReceiveCall(p, op, buf);
        case OpDestroy => DestroyCall(p);
      }
    }

    /** Over any run on an inbox, its queue, its waiters, the states of all processes and every reply are those of the
        view. */
    method Exchange(p: nat, ops: seq<Op>, buf: array<byte>) returns (log: seq<Reply>)
      requires Inv() && p < MAX_INBOXES
      requires forall i | 0 <= i < |ops| && ops[i].OpSend? :: ops[i].sender in status
      requires forall i | 0 <= i < |ops| && ops[i].OpReceive? :: ops[i].bufSize <= buf.Length
      modifies this, buf, endpoints[p], if endpoints[p] != null then {endpoints[p].messages} else {}
      ensures Inv() && (Seen(p), log) == Calls(old(Seen(p)), p, ops)
    {
      log := [];
      assert ops[..0] == [];
      for i := 0 to |ops|
        invariant Inv() && status.Keys == old(status.Keys)
        invariant endpoints[p] == null || endpoints[p] == old(endpoints[p])
                  || (fresh(endpoints[p]) && fresh(endpoints[p].messages))
        invariant (Seen(p), log) == Calls(old(Seen(p)), p, ops[..i])
      {
        assert ops[..i + 1][..i] == ops[..i];
        var r := Call(p, ops[i], buf);
        log := log + [r];
      }
      assert ops[..|ops|] == ops;
    }
  }
}
