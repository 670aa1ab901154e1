/** Virtual terminals: byte rings, and the table of terminals with at most one in focus. */
module VirtualTerminals {
  import opened Bytes

  // ---- ring_write and ring_read ----

  /** How many places after `h` place `s` comes in a ring of `cap`. */
  function Behind(h: nat, s: nat, cap: nat): nat
    requires h < cap && s < cap
  {
    if h <= s then s - h else s + cap - h
  }

  function After(s: nat, cap: nat): nat
    requires s < cap
  {
    if s + 1 == cap then 0 else s + 1
  }

  class ByteRing {
    const buf: array<byte>
    var head: nat
    var tail: nat
    var count: nat
    ghost var contents: seq<byte>

    /** The bytes written and not yet read, oldest first, lie from the head on. */
    ghost predicate Valid()
      reads this, buf
    {
      && 0 < buf.Length && head < buf.Length && tail < buf.Length && count == |contents| <= buf.Length
      && Behind(head, tail, buf.Length) == (if count == buf.Length then 0 else count)
      && forall s | 0 <= s < buf.Length && Behind(head, s, buf.Length) < count ::
         buf[s] == contents[Behind(head, s, buf.Length)]
    }

    constructor (cap: nat)
      requires 0 < cap
      ensures Valid() && contents == [] && buf.Length == cap && fresh(buf)
    {
      buf := new byte[cap];
      head, tail, count, contents := 0, 0, 0, [];
    }

    method Reset()
      requires Valid()
      modifies this
      ensures Valid() && contents == []
    {
      head, tail, count, contents := 0, 0, 0, [];
    }

    method Put(x: byte)
      requires Valid() && count < buf.Length
      modifies this`tail, this`count, this`contents, buf
      ensures Valid() && contents == old(contents) + [x]
    {
      buf[tail] := x;
      tail := After(tail, buf.Length);
      count := count + 1;
      contents := contents + [x];
    }

    method Take() returns (x: byte)
      requires Valid() && count > 0
      modifies this`head, this`count, this`contents
      ensures Valid() && x == old(contents)[0] && contents == old(contents)[1..]
    {
      x := buf[head];
      head := After(head, buf.Length);
      count := count - 1;
      contents := contents[1..];
    }

    /** `ring_write`: the longest prefix that fits. */
    method Write(src: seq<byte>) returns (w: nat)
      requires Valid()
      modifies this, buf
      ensures Valid() && w == (if |src| < buf.Length - |old(contents)| then |src| else buf.Length - |old(contents)|)
      ensures contents == old(contents) + src[..w]
    {
      w := 0;
      while w < |src| && count < buf.Length
        invariant Valid() && 0 <= w <= |src| && contents == old(contents) + src[..w]
      {
        Put(src[w]);
        w := w + 1;
        assert src[..w] == src[..w - 1] + [src[w - 1]];
      }
    }

    /** `ring_read`: the oldest bytes. */
    method Read(dst: array<byte>, n: nat) returns (r: nat)
      requires Valid() && n <= dst.Length && dst != buf
      modifies this`head, this`count, this`contents, dst
      ensures Valid() && r == (if n < |old(contents)| then n else |old(contents)|)
      ensures dst[..r] == old(contents)[..r] && dst[r..] == old(dst[r..]) && contents == old(contents)[r..]
    {
      r := 0;
      while r < n && count > 0
        invariant Valid() && 0 <= r <= n && r <= |old(contents)| && contents == old(contents)[r..]
        invariant forall j | 0 <= j < dst.Length :: dst[j] == if j < r then old(contents)[j] else old(dst[j])
      {
        var x := Take();
        dst[r] := x;
        r := r + 1;
      }
    }
  }

  /** Rings that share nothing; `mem` is what they are made of. */
  method MakeRings(n: nat, cap: nat) returns (rings: seq<ByteRing>, ghost mem: set<object>)
    requires 0 < cap
    ensures |rings| == n && fresh(mem)
    ensures forall i | 0 <= i < n ::
      && rings[i] in mem && rings[i].buf in mem
      && rings[i].Valid() && rings[i].contents == [] && rings[i].buf.Length == cap
    ensures forall i, j | 0 <= i < j < n :: rings[i] != rings[j] && rings[i].buf != rings[j].buf
  {
    rings, mem := [], {};
    for i := 0 to n
      invariant |rings| == i && fresh(mem)
      invariant forall j | 0 <= j < i ::
        && rings[j] in mem && rings[j].buf in mem
        && rings[j].Valid() && rings[j].contents == [] && rings[j].buf.Length == cap
      invariant forall j, k | 0 <= j < k < i :: rings[j] != rings[k] && rings[j].buf != rings[k].buf
    {
      var r := new ByteRing(cap);
      rings, mem := rings + [r], mem + {r, r.buf};
    }
  }

  /** What goes in comes out: bytes written to an empty ring, if they fit, are the bytes read. */
  method WriteThenRead(ring: ByteRing, src: seq<byte>, dst: array<byte>) returns (r: nat)
    requires ring.Valid() && ring.contents == [] && |src| <= ring.buf.Length && |src| <= dst.Length && dst != ring.buf
    modifies ring, ring.buf, dst
    ensures ring.Valid() && r == |src| && dst[..r] == src && ring.contents == []
  {
    var w := ring.Write(src);
    r := ring.Read(dst, |src|);
  }

  // ---- the table ----

  const VT_MAX := 16
  const NONE: int := -1    // (u64)-1, no terminal

  datatype State = Free | Active | Focused

  datatype Slot = Slot(id: nat, state: State)

  /** What callers do: the three control calls, and bytes through a live terminal's rings. */
  datatype Op =
    | Create
    | Destroy(id: int)
    | Focus(id: int)
    | Write(id: int, src: seq<byte>)    // to the output ring
    | Read(id: int, n: nat)             // from the output ring
    | Type(id: int, src: seq<byte>)     // to the input ring

  /** What a call returns, and the bytes it handed out. */
  datatype Reply = Reply(result: int, data: seq<byte>)

  predicate Live(s: Slot) { s.state != Free }

  /** Live ids are distinct and below the counter; a slot is in focus exactly when its id is the recorded one, and some
      slot is when an id is recorded. */
  ghost predicate TableOk(t: seq<Slot>, counter: nat, focused: int) {
    && |t| == VT_MAX && -1 <= focused
    && (forall i | 0 <= i < VT_MAX && Live(t[i]) :: t[i].id < counter)
    && (forall i, j | 0 <= i < j < VT_MAX && Live(t[i]) && Live(t[j]) :: t[i].id != t[j].id)
    && (forall i | 0 <= i < VT_MAX && Live(t[i]) :: (t[i].state == Focused <==> t[i].id == focused))
    && (focused != NONE ==> focused in Ids(t))
  }

  /** The live terminals. */
  ghost function Ids(t: seq<Slot>): (r: set<int>)
    ensures forall x :: x in r <==> exists i :: 0 <= i < |t| && Live(t[i]) && t[i].id == x
  {
    set i | 0 <= i < |t| && Live(t[i]) :: t[i].id
  }

  lemma IdsAdded(t: seq<Slot>, k: nat, x: Slot)
    requires k < |t| && !Live(t[k]) && Live(x)
    ensures Ids(t[k := x]) == Ids(t) + {x.id}
  {
    var u := t[k := x];
    forall y | y in Ids(t) ensures y in Ids(u) {
      var i :| 0 <= i < |t| && Live(t[i]) && t[i].id == y;
      assert u[i] == t[i];
    }
    assert u[k] == x;
  }

  lemma IdsRestated(t: seq<Slot>, k: nat, x: Slot)
    requires k < |t| && Live(t[k]) && Live(x) && x.id == t[k].id
    ensures Ids(t[k := x]) == Ids(t)
  {
    var u := t[k := x];
    forall y | y in Ids(t) ensures y in Ids(u) {
      var i :| 0 <= i < |t| && Live(t[i]) && t[i].id == y;
      assert Live(u[i]) && u[i].id == y;
    }
    forall y | y in Ids(u) ensures y in Ids(t) {
      var i :| 0 <= i < |t| && Live(u[i]) && u[i].id == y;
      assert Live(t[i]) && t[i].id == y;
    }
  }

  lemma IdsRemoved(t: seq<Slot>, k: nat, x: Slot)
    requires k < |t| && Live(t[k]) && !Live(x)
    requires forall i | 0 <= i < |t| && Live(t[i]) && i != k :: t[i].id != t[k].id
    ensures Ids(t[k := x]) == Ids(t) - {t[k].id}
  {
    var u := t[k := x];
    forall y | y in Ids(t) && y != t[k].id ensures y in Ids(u) {
      var i :| 0 <= i < |t| && Live(t[i]) && t[i].id == y;
      assert u[i] == t[i];
    }
    forall y | y in Ids(u) ensures y in Ids(t) && y != t[k].id {
      var i :| 0 <= i < |t| && Live(u[i]) && u[i].id == y;
      assert t[i] == u[i];
    }
  }

  /** The id belongs to a live terminal. */
  ghost predicate Owned(t: seq<Slot>, x: int) {
    exists i :: 0 <= i < |t| && Live(t[i]) && t[i].id == x
  }

  /** If slot `i` is live, `m` has what its rings hold. */
  ghost predicate ShownAt(t: seq<Slot>, u: seq<Term>, m: map<int, Term>, i: int) {
    0 <= i < |t| && i < |u| && (Live(t[i]) ==> t[i].id in m && m[t[i].id] == u[i])
  }

  /** `m` is what the rings of the live terminals hold, if `u` is what all rings hold. */
  ghost predicate Shows(t: seq<Slot>, u: seq<Term>, m: map<int, Term>) {
    && |t| == |u|
    && (forall x {:trigger Owned(t, x)} | x in m :: Owned(t, x))
    && forall i {:trigger ShownAt(t, u, m, i)} | 0 <= i < |t| :: ShownAt(t, u, m, i)
  }

  lemma ShowsKeys(t: seq<Slot>, u: seq<Term>, m: map<int, Term>)
    requires Shows(t, u, m)
    ensures m.Keys == Ids(t)
  {
    forall x | x in m ensures x in Ids(t) {
      assert Owned(t, x);
    }
    forall x | x in Ids(t) ensures x in m {
      var i :| 0 <= i < |t| && Live(t[i]) && t[i].id == x;
      assert ShownAt(t, u, m, i);
    }
  }

  lemma ShowsAdded(t: seq<Slot>, u: seq<Term>, m: map<int, Term>, k: nat, x: Slot, y: Term)
    requires Shows(t, u, m) && k < |t| && !Live(t[k]) && Live(x) && x.id !in m
    ensures Shows(t[k := x], u[k := y], m[x.id := y])
  {
    var t', u', m' := t[k := x], u[k := y], m[x.id := y];
    assert t'[k] == x;
    forall z | z in m ensures Owned(t', z) {
      assert Owned(t, z);
      var i :| 0 <= i < |t| && Live(t[i]) && t[i].id == z;
      assert t'[i] == t[i];
    }
    forall i | 0 <= i < |t| ensures ShownAt(t', u', m', i) {
      assert ShownAt(t, u, m, i);
    }
  }

  lemma ShowsRestated(t: seq<Slot>, u: seq<Term>, m: map<int, Term>, k: nat, x: Slot)
    requires Shows(t, u, m) && k < |t| && Live(t[k]) && Live(x) && x.id == t[k].id
    ensures Shows(t[k := x], u, m)
  {
    var t' := t[k := x];
    forall z | z in m ensures Owned(t', z) {
      assert Owned(t, z);
      var i :| 0 <= i < |t| && Live(t[i]) && t[i].id == z;
      assert Live(t'[i]) && t'[i].id == z;
    }
    forall i | 0 <= i < |t| ensures ShownAt(t', u, m, i) {
      assert ShownAt(t, u, m, i);
    }
  }

  lemma ShowsRemoved(t: seq<Slot>, u: seq<Term>, m: map<int, Term>, k: nat, x: Slot)
    requires Shows(t, u, m) && Distinct(t) && k < |t| && Live(t[k]) && !Live(x)
    ensures Shows(t[k := x], u, m - {t[k].id})
  {
    var t', m' := t[k := x], m - {t[k].id};
    forall z | z in m' ensures Owned(t', z) {
      assert Owned(t, z);
      var i :| 0 <= i < |t| && Live(t[i]) && t[i].id == z;
      assert t'[i] == t[i];
    }
    forall i | 0 <= i < |t| ensures ShownAt(t', u, m', i) {
      assert ShownAt(t, u, m, i);
    }
  }

  lemma ShowsWritten(t: seq<Slot>, u: seq<Term>, m: map<int, Term>, k: nat, y: Term)
    requires Shows(t, u, m) && Distinct(t) && k < |t| && Live(t[k])
    ensures t[k].id in m && m[t[k].id] == u[k]
    ensures Shows(t, u[k := y], m[t[k].id := y])
  {
    var u', m' := u[k := y], m[t[k].id := y];
    assert ShownAt(t, u, m, k);
    forall i | 0 <= i < |t| ensures ShownAt(t, u', m', i) {
      assert ShownAt(t, u, m, i);
    }
  }

  // ---- what a run should do ----

  /** The unread bytes of a live terminal's two rings. */
  datatype Term = Term(input: seq<byte>, output: seq<byte>)

  /** The table as its callers see it: the live terminals, the next id, and who has the focus. */
  datatype View = View(terms: map<int, Term>, counter: nat, focused: int)

  function Least(n: nat, room: int): (w: nat)
    ensures w <= n
  {
    if room < 0 then 0 else if n < room then n else room
  }

  /** One call. */
  function CallOne(v: View, op: Op): (View, Reply) {
    match op
    case Create =>
      if |v.terms.Keys| >= 16 then (v, Reply(-1, []))
      else
        (View(v.terms[v.counter := Term([], [])], v.counter + 1, if v.focused == -1 then v.counter else v.focused),
         Reply(v.counter, []))
    case Destroy(id) =>
      (v.(terms := v.terms - {id}, focused := if v.focused == id then -1 else v.focused), Reply(0, []))
    case Focus(id) => (v.(focused := if id in v.terms then id else -1), Reply(0, []))
    case Write(id, src) =>
      if id !in v.terms then (v, Reply(-1, []))
      else
        var x := v.terms[id];
        var w := Least(|src|, 65536 - |x.output|);
        (v.(terms := v.terms[id := x.(output := x.output + src[..w])]), Reply(w, []))
    case Read(id, n) =>
      if id !in v.terms then (v, Reply(-1, []))
      else
        var x := v.terms[id];
        var r := Least(n, |x.output|);
        (v.(terms := v.terms[id := x.(output := x.output[r..])]), Reply(r, x.output[..r]))
    case Type(id, src) =>
      if id !in v.terms then (v, Reply(-1, []))
      else
        var x := v.terms[id];
        var w := Least(|src|, 4096 - |x.input|);
        (v.(terms := v.terms[id := x.(input := x.input + src[..w])]), Reply(w, []))
  }

  /** The view after all the calls, and what each of them returned. */
  function Calls(v: View, ops: seq<Op>): (r: (View, seq<Reply>))
    ensures |r.1| == |ops|
  {
    if ops == [] then (v, []) else
      var before := Calls(v, ops[..|ops| - 1]);
      var last := CallOne(before.0, ops[|ops| - 1]);
      (last.0, before.1 + [last.1])
  }

  lemma CreateIs(v: View, w: View, id: int)
    requires id == -1 ==> w == v && |v.terms.Keys| >= 16
    requires id != -1 ==> id == v.counter && |v.terms.Keys| < 16
    requires id != -1 ==> w == View(v.terms[id := Term([], [])], id + 1, if v.focused == -1 then id else v.focused)
    ensures (w, Reply(id, [])) == CallOne(v, Op.Create)
  {
  }

  predicate ViewOk(v: View) {
    && NONE <= v.focused && |v.terms.Keys| <= VT_MAX
    && (forall x | x in v.terms :: 0 <= x < v.counter) && (v.focused != NONE ==> v.focused in v.terms)
    && forall x | x in v.terms :: |v.terms[x].input| <= 4096 && |v.terms[x].output| <= 65536
  }

  lemma CreateOk(v: View)
    requires ViewOk(v)
    ensures ViewOk(CallOne(v, Op.Create).0)
  {
    var w := CallOne(v, Op.Create).0;
    assert |v.terms.Keys| < VT_MAX ==> w.terms.Keys == v.terms.Keys + {v.counter};
  }

  lemma CallOk(v: View, op: Op)
    requires ViewOk(v)
    ensures ViewOk(CallOne(v, op).0)
  {
    var w := CallOne(v, op).0;
    if op.Destroy? {
      assert w.terms.Keys == v.terms.Keys - {op.id};
      assert op.id in v.terms ==> v.terms.Keys == w.terms.Keys + {op.id};
      assert op.id !in v.terms ==> v.terms.Keys == w.terms.Keys;
    } else if op.Create? {
      CreateOk(v);
    } else {
      assert w.terms.Keys == v.terms.Keys;
    }
  }

  /** Ids, focus and rings stay sound over a run. */
  lemma {:induction false} CallsOk(v: View, ops: seq<Op>)
    requires ViewOk(v)
    ensures ViewOk(Calls(v, ops).0)
  {
    if ops != [] {
      var n := |ops| - 1;
      CallsOk(v, ops[..n]);
      CallOk(Calls(v, ops[..n]).0, ops[n]);
    }
  }

  /** The next id never goes back. */
  lemma {:induction false} CounterGrows(v: View, ops: seq<Op>, i: nat)
    requires i <= |ops|
    ensures Calls(v, ops[..i]).0.counter <= Calls(v, ops).0.counter
    decreases |ops|
  {
    if i < |ops| {
      CounterGrows(v, ops[..|ops| - 1], i);
      assert ops[..|ops| - 1][..i] == ops[..i];
    } else {
      assert ops[..i] == ops;
    }
  }

  lemma {:induction false} LogAt(v: View, ops: seq<Op>, i: nat)
    requires i < |ops|
    ensures Calls(v, ops).1[i] == CallOne(Calls(v, ops[..i]).0, ops[i]).1
    decreases |ops|
  {
    var n := |ops| - 1;
    if i < n {
      LogAt(v, ops[..n], i);
      assert ops[..n][..i] == ops[..i];
    }
  }

  /** Over any run, a creation gives out an id exactly when fewer than sixteen terminals live. The id is no live
      terminal's, and higher than every id given out before it. */
  lemma NoReuse(v: View, ops: seq<Op>, i: nat, j: nat)
    requires ViewOk(v) && i <= j < |ops| && ops[i].Create? && ops[j].Create?
    ensures var log, terms := Calls(v, ops).1, Calls(v, ops[..j]).0.terms;
            && (log[j].result != -1 <==> |terms.Keys| < 16)
            && (log[j].result != -1 ==> v.counter <= log[j].result && log[j].result !in terms)
            && (i < j && log[i].result != -1 && log[j].result != -1 ==> log[i].result < log[j].result)
  {
    LogAt(v, ops, i);
    LogAt(v, ops, j);
    CallsOk(v, ops[..j]);
    CounterGrows(v, ops[..j], 0);
    assert ops[..j][..0] == [];
    if i < j {
      CounterGrows(v, ops[..j], i + 1);
      assert ops[..j][..i + 1] == ops[..i + 1] && ops[..i + 1][..i] == ops[..i];
    }
  }

  // ---- no byte is lost, repeated or out of order ----

  /** What the writers of a terminal's output got in, one after the other. */
  function Accepted(v: View, ops: seq<Op>, id: int): seq<byte> {
    if ops == [] then [] else
      var n := |ops| - 1;
      var w := Calls(v, ops).1[n].result;
      Accepted(v, ops[..n], id)
      + if ops[n].Write? && ops[n].id == id && 0 <= w <= |ops[n].src| then ops[n].src[..w] else []
  }

  /** What its readers got, one after the other. */
  function Delivered(v: View, ops: seq<Op>, id: int): seq<byte> {
    if ops == [] then [] else
      var n := |ops| - 1;
      Delivered(v, ops[..n], id) + if ops[n].Read? && ops[n].id == id then Calls(v, ops).1[n].data else []
  }

  /** A terminal that is alive after a run was alive all the time. */
  lemma AliveBefore(v: View, op: Op, id: int)
    requires ViewOk(v) && id < v.counter && id in CallOne(v, op).0.terms
    ensures id in v.terms
  {
  }

  /** Over any run that a terminal survives, what was unread and what was accepted is what was delivered and what is
      unread now, whatever happens to all other terminals. */
  lemma {:induction false} StreamKept(v: View, ops: seq<Op>, id: int)
    requires ViewOk(v) && id in v.terms && id in Calls(v, ops).0.terms
    ensures v.terms[id].output + Accepted(v, ops, id) == Delivered(v, ops, id) + Calls(v, ops).0.terms[id].output
    decreases |ops|
  {
    if ops != [] {
      var n := |ops| - 1;
      var before := Calls(v, ops[..n]).0;
      CallsOk(v, ops[..n]);
      CounterGrows(v, ops[..n], 0);
      assert ops[..n][..0] == [];
      AliveBefore(before, ops[n], id);
      StreamKept(v, ops[..n], id);
      StreamStep(before, ops[n], id);
      Grown(v.terms[id].output, Accepted(v, ops[..n], id), Delivered(v, ops[..n], id), before.terms[id].output,
            Accepted(v, ops, id)[|Accepted(v, ops[..n], id)|..], Delivered(v, ops, id)[|Delivered(v, ops[..n], id)|..],
            Calls(v, ops).0.terms[id].output);
    }
  }

  lemma Grown(was: seq<byte>, acc: seq<byte>, out: seq<byte>, mid: seq<byte>, put: seq<byte>, got: seq<byte>,
              now: seq<byte>)
    requires was + acc == out + mid && mid + put == got + now
    ensures was + (acc + put) == out + got + now
  {
    assert was + (acc + put) == was + acc + put;
    assert out + mid + put == out + (mid + put);
  }

  lemma StreamStep(v: View, op: Op, id: int)
    requires ViewOk(v) && id in v.terms && id in CallOne(v, op).0.terms
    ensures var (w, r) := CallOne(v, op);
            if op.Write? && op.id == id then
              0 <= r.result <= |op.src| && w.terms[id].output == v.terms[id].output + op.src[..r.result]
            else if op.Read? && op.id == id then v.terms[id].output == r.data + w.terms[id].output
            else w.terms[id].output == v.terms[id].output
  {
  }

  // ---- key events ----

  /** A key event of twelve bytes goes whole into an input ring of whole events if and only if fewer than 341 are
      unread; otherwise its first four bytes do, and the ring no longer holds whole events. */
  lemma EventsStayWhole(v: View, id: int, src: seq<byte>)
    requires ViewOk(v) && id in v.terms && |src| == 12 && |v.terms[id].input| % 12 == 0
    ensures var (w, r) := CallOne(v, Type(id, src));
            && id in w.terms && (|w.terms[id].input| % 12 == 0 <==> |v.terms[id].input| < 12 * 341)
            && r.result == (if |v.terms[id].input| < 12 * 341 then 12 else 4)
            && w.terms[id].input == v.terms[id].input + src[..r.result]
  {
  }

  // ---- the table is full exactly when sixteen terminals are live ----

  ghost predicate Distinct(t: seq<Slot>) {
    forall i, j | 0 <= i < j < |t| && Live(t[i]) && Live(t[j]) :: t[i].id != t[j].id
  }

  ghost predicate Full(t: seq<Slot>) {
    forall i | 0 <= i < |t| :: Live(t[i])
  }

  lemma FullLast(t: seq<Slot>)
    requires t != []
    ensures Full(t) <==> Full(t[..|t| - 1]) && Live(t[|t| - 1])
  {
    var n := |t| - 1;
    assert forall i | 0 <= i < n :: t[..n][i] == t[i];
  }

  lemma {:induction false} IdsCount(t: seq<Slot>)
    requires Distinct(t)
    ensures |Ids(t)| <= |t| && (|Ids(t)| == |t| <==> Full(t))
  {
    if t == [] {
      assert Ids(t) == {};
    } else {
      var n := |t| - 1;
      FullLast(t);
      IdsLast(t);
      LastIsNew(t);
      IdsCount(t[..n]);
    }
  }

  lemma LastIsNew(t: seq<Slot>)
    requires t != [] && Distinct(t)
    ensures Distinct(t[..|t| - 1]) && (Live(t[|t| - 1]) ==> t[|t| - 1].id !in Ids(t[..|t| - 1]))
  {
  }

  lemma IdsLast(t: seq<Slot>)
    requires t != []
    ensures Ids(t) == Ids(t[..|t| - 1]) + if Live(t[|t| - 1]) then {t[|t| - 1].id} else {}
  {
    var n := |t| - 1;
    var u := t[..n];
    forall x | x in Ids(t) ensures x in Ids(u) || (Live(t[n]) && x == t[n].id) {
      var i :| 0 <= i < |t| && Live(t[i]) && t[i].id == x;
      assert i < n ==> u[i] == t[i];
    }
    forall x | x in Ids(u) ensures x in Ids(t) {
      var i :| 0 <= i < |u| && Live(u[i]) && u[i].id == x;
      assert t[i] == u[i];
    }
  }

  class VtTable {
    const slots: array<Slot>
    const inputs: seq<ByteRing>
    const outputs: seq<ByteRing>
    ghost const repr: set<object>     // the rings and their buffers
    var counter: nat
    var focused: int
    ghost var held: seq<Term>         // what the rings hold, slot by slot
    ghost var terms: map<int, Term>   // what the live terminals' rings hold, by id

    ghost predicate Valid()
      reads this, slots
    {
      slots.Length == VT_MAX && |inputs| == |outputs| == VT_MAX && TableOk(slots[..], counter, focused)
    }

    /** Every terminal has two sound rings of its own, and `held` is what they hold. */
    ghost predicate RingsOk()
      reads this`held, repr
    {
      && |inputs| == |outputs| == |held| == VT_MAX && slots !in repr && this !in repr
      && (forall i | 0 <= i < VT_MAX ::
            && inputs[i] in repr && inputs[i].buf in repr && inputs[i].Valid() && inputs[i].buf.Length == 4096
            && outputs[i] in repr && outputs[i].buf in repr && outputs[i].Valid() && outputs[i].buf.Length == 65536
            && held[i] == Term(inputs[i].contents, outputs[i].contents))
      && (forall i, j | 0 <= i < j < VT_MAX ::
            && inputs[i] != inputs[j] && inputs[i].buf != inputs[j].buf
            && outputs[i] != outputs[j] && outputs[i].buf != outputs[j].buf)
      && forall i, j | 0 <= i < VT_MAX && 0 <= j < VT_MAX ::
           inputs[i] != outputs[j] && inputs[i].buf != outputs[j].buf
    }

    /** `terms` is what the rings of the live terminals hold. */
    ghost predicate Shown()
      reads this, slots
    {
      Valid() && Shows(slots[..], held, terms)
    }

    /** `vt_subsystem_init`, with the buffers the table has room for. */
    constructor ()
      ensures Shown() && RingsOk() && terms == map[] && counter == 0 && focused == NONE
      ensures fresh(slots) && fresh(repr)
    {
      ghost var m1, m2;
      var ins, outs;
      ins, m1 := MakeRings(VT_MAX, 4096);
      outs, m2 := MakeRings(VT_MAX, 65536);
      inputs, outputs, repr, terms := ins, outs, m1 + m2, map[];
      held := seq(VT_MAX, i => Term([], []));
      slots := new Slot[VT_MAX](_ => Slot(0, Free));
      counter, focused := 0, NONE;
    }

    /** `vt_get`. */
    method Get(id: int) returns (i: int)
      requires Valid()
      ensures -1 <= i < VT_MAX
      ensures i >= 0 ==> Live(slots[i]) && slots[i].id == id
      ensures i < 0 <==> id !in Ids(slots[..])
    {
      i := 0;
      while i < VT_MAX
        invariant 0 <= i <= VT_MAX && forall j | 0 <= j < i :: !(Live(slots[..][j]) && slots[..][j].id == id)
      {
        if slots[i].state != Free && slots[i].id == id {
          assert slots[..][i] == slots[i];
          return;
        }
        i := i + 1;
      }
      i := -1;
    }

    /** Fill a free slot. */
    method Occupy(k: nat, id: nat)
      requires Valid() && k < VT_MAX && !Live(slots[k]) && id == counter
      modifies this`counter, this`focused, slots
      ensures Valid() && slots[..] == old(slots[..])[k := slots[k]] && slots[k].id == id && counter == id + 1
      ensures Ids(slots[..]) == old(Ids(slots[..])) + {id}
      ensures focused == if old(focused) == NONE then id else old(focused)
    {
      ghost var t := slots[..];
      counter := counter + 1;
      slots[k] := Slot(id, Active);
      if focused == NONE {
        slots[k] := Slot(id, Focused);
        focused := id;
      }
      assert slots[..] == t[k := slots[k]];
      IdsAdded(t, k, slots[k]);
    }

    /** Empty the two rings of one slot. Every other ring keeps its bytes. */
    method ResetRings(k: nat)
      requires RingsOk() && k < VT_MAX
      modifies this`held, repr
      ensures RingsOk() && held == old(held)[k := Term([], [])]
    {
      inputs[k].Reset();
      outputs[k].Reset();
      held := held[k := Term([], [])];
      forall j | 0 <= j < VT_MAX ensures held[j] == Term(inputs[j].contents, outputs[j].contents) {
        }
    }

    /** `vt_create`: a fresh id in the first free slot, with empty rings; focus goes to it if nothing has it. No other
        terminal's rings change. */
    method New() returns (id: int)
      requires Shown() && RingsOk()
      modifies this`counter, this`focused, this`terms, this`held, slots, repr
      ensures Shown() && RingsOk()
      ensures id == NONE ==>
        counter == old(counter) && focused == old(focused) && slots[..] == old(slots[..]) && terms == old(terms)
      ensures id == NONE <==> forall i | 0 <= i < VT_MAX :: Live(old(slots[..])[i])
      ensures id != NONE ==>
        && id == old(counter) && counter == id + 1 && terms == old(terms)[id := Term([], [])]
        && focused == (if old(focused) == NONE then id else old(focused))
        && exists k :: 0 <= k < VT_MAX && NewSlot(k, id)
    {
      var k := 0;
      while k < VT_MAX && slots[k].state != Free
        invariant 0 <= k <= VT_MAX && forall j | 0 <= j < k :: Live(slots[..][j])
      {
        k := k + 1;
      }
      if k == VT_MAX {
        return NONE;
      }
      id := counter;
      Fill(k, id);
      NewSlotIs(k, id);
    }

    /** The terminal `id` has taken the free slot `k`, both its rings are empty, and no other slot and no other ring is
        any different. */
    twostate predicate NewSlot(k: int, id: int)
      requires slots.Length == |inputs| == |outputs| == VT_MAX
      reads slots, inputs, outputs
    {
      && 0 <= k < VT_MAX && Live(slots[k]) && slots[k].id == id && !Live(old(slots[k]))
      && inputs[k].contents == outputs[k].contents == []
      && (forall j | 0 <= j < k :: Live(old(slots[j])))
      && forall j | 0 <= j < VT_MAX && j != k ::
           && slots[j] == old(slots[j])
           && inputs[j].contents == old(inputs[j].contents) && outputs[j].contents == old(outputs[j].contents)
    }

    lemma CounterIsNew()
      requires Shown()
      ensures counter !in terms
    {
      ShowsKeys(slots[..], held, terms);
    }

    /** The new terminal goes into slot `k`. */
    method Fill(k: nat, id: nat)
      requires Shown() && RingsOk() && k < VT_MAX && !Live(slots[k]) && id == counter
      modifies this`counter, this`focused, this`terms, this`held, slots, repr
      ensures Shown() && RingsOk() && counter == id + 1 && terms == old(terms)[id := Term([], [])]
      ensures focused == if old(focused) == NONE then id else old(focused)
      ensures Live(slots[..][k]) && slots[..][k].id == id && slots[..] == old(slots[..])[k := slots[..][k]]
      ensures held == old(held)[k := Term([], [])]
    {
      ghost var t, u, m := slots[..], held, terms;
      CounterIsNew();
      Occupy(k, id);
      ghost var t' := slots[..];
      ResetRings(k);
      assert slots[..] == t';
      ShowsAdded(t, u, m, k, t'[k], Term([], []));
      terms := terms[id := Term([], [])];
    }

    twostate lemma NewSlotIs(new k: int, new id: int)
      requires old(Shown() && RingsOk()) && Shown() && RingsOk() && 0 <= k < VT_MAX
      requires !Live(old(slots[..])[k]) && forall j | 0 <= j < k :: Live(old(slots[..])[j])
      requires Live(slots[..][k]) && slots[..][k].id == id && slots[..] == old(slots[..])[k := slots[..][k]]
      requires held == old(held)[k := Term([], [])]
      ensures NewSlot(k, id)
    {
      assert held[k] == Term(inputs[k].contents, outputs[k].contents);
      forall j | 0 <= j < VT_MAX && j != k
        ensures slots[j] == old(slots[j])
        ensures inputs[j].contents == old(inputs[j].contents) && outputs[j].contents == old(outputs[j].contents)
      {
        assert slots[..][j] == old(slots[..])[j] && held[j] == old(held)[j];
        assert held[j] == Term(inputs[j].contents, outputs[j].contents);
      }
      forall j | 0 <= j < k ensures Live(old(slots[j])) {
        assert Live(old(slots[..])[j]);
      }
    }

    /** `vt_destroy`: the terminal is gone, and the focus with it if it had it. No ring changes. */
    method Remove(id: int)
      requires Shown()
      modifies this`focused, this`terms, slots
      ensures Shown() && terms == old(terms) - {id}
      ensures focused == if old(focused) == id then NONE else old(focused)
    {
      ghost var t, u := slots[..], held;
      ShowsKeys(t, u, terms);
      var i := Release(id);
      if i >= 0 {
        ShowsRemoved(t, u, terms, i, slots[..][i]);
      } else {
        assert terms - {id} == terms;
      }
      terms := terms - {id};
    }

    /** Free the slot with this id. */
    method Release(id: int) returns (i: int)
      requires Valid()
      modifies this`focused, slots
      ensures Valid() && -1 <= i < VT_MAX && (i < 0 <==> id !in old(Ids(slots[..])))
      ensures focused == if old(focused) == id then NONE else old(focused)
      ensures i < 0 ==> slots[..] == old(slots[..])
      ensures i >= 0 ==>
        && Live(old(slots[..])[i]) && old(slots[..])[i].id == id && !Live(slots[..][i])
        && slots[..] == old(slots[..])[i := slots[..][i]]
    {
      i := Get(id);
      if i < 0 {
        return;
      }
      ghost var t := slots[..];
      if focused == id {
        focused := NONE;
      }
      slots[i] := slots[i].(state := Free);
      assert slots[..] == t[i := slots[i]];
      IdsRemoved(t, i, slots[i]);
    }

    /** `vt_focus`: a live terminal gets the focus; any other id takes it from whoever had it. No ring changes. */
    method SetFocus(id: int)
      requires Shown() && NONE <= id
      modifies this`focused, slots
      ensures Shown() && focused == if id in terms then id else NONE
    {
      Unfocus();
      ShowsKeys(slots[..], held, terms);
      if id == NONE {
        return;
      }
      var i := Get(id);
      if i < 0 {
        return;
      }
      Mark(i, Focused, id);
    }

    /** Nobody has the focus. */
    method Unfocus()
      requires Shown()
      modifies this`focused, slots
      ensures Shown() && focused == NONE
    {
      if focused != NONE {
        var was := Get(focused);
        if was >= 0 && slots[was].state == Focused {
          Mark(was, Active, NONE);
        }
      }
      focused := NONE;
    }

    /** Give a live slot another state, and record who has the focus. */
    method Mark(i: nat, state: State, id: int)
      requires Shown() && i < VT_MAX && Live(slots[i])
      requires if state == Focused then id == slots[i].id && focused == NONE
               else state == Active && id == NONE && slots[i].id == focused
      modifies this`focused, slots
      ensures Shown() && focused == id
    {
      ghost var t, u := slots[..], held;
      slots[i] := slots[i].(state := state);
      focused := id;
      assert slots[..] == t[i := slots[i]];
      ShowsRestated(t, u, terms, i, slots[i]);
    }

    /** Write to the output ring of one slot. */
    method PutOutput(i: nat, src: seq<byte>) returns (w: nat)
      requires RingsOk() && i < VT_MAX
      modifies this`held, repr
      ensures RingsOk() && w == Least(|src|, 65536 - |old(held)[i].output|)
      ensures held == old(held)[i := old(held)[i].(output := old(held)[i].output + src[..w])]
    {
      w := outputs[i].Write(src);
      held := held[i := held[i].(output := held[i].output + src[..w])];
    }

    /** Write to the input ring of one slot. */
    method PutInput(i: nat, src: seq<byte>) returns (w: nat)
      requires RingsOk() && i < VT_MAX
      modifies this`held, repr
      ensures RingsOk() && w == Least(|src|, 4096 - |old(held)[i].input|)
      ensures held == old(held)[i := old(held)[i].(input := old(held)[i].input + src[..w])]
    {
      w := inputs[i].Write(src);
      held := held[i := held[i].(input := held[i].input + src[..w])];
    }

    /** Read from the output ring of one slot. */
    method TakeBytes(i: nat, n: nat) returns (data: seq<byte>)
      requires RingsOk() && i < VT_MAX
      modifies this`held, repr
      ensures RingsOk()
      ensures var x := old(held)[i];
              && data == x.output[..Least(n, |x.output|)]
              && held == old(held)[i := x.(output := x.output[|data|..])]
    {
      var dst := new byte[n];
      var r := outputs[i].Read(dst, n);
      data := dst[..r];
      held := held[i := held[i].(output := held[i].output[r..])];
    }

    /** `vt_output_write` on the terminal with this id. */
    method WriteTo(id: int, src: seq<byte>) returns (w: int)
      requires Shown() && RingsOk()
      modifies this`terms, this`held, repr
      ensures Shown() && RingsOk() && (Seen(), Reply(w, [])) == CallOne(old(Seen()), Op.Write(id, src))
    {
      ShowsKeys(slots[..], held, terms);
      var i := Get(id);
      if i < 0 {
        return -1;
      }
      ghost var t, u := slots[..], held;
      w := PutOutput(i, src);
      assert slots[..] == t;
      ShowsWritten(t, u, terms, i, held[i]);
      terms := terms[id := held[i]];
    }

    /** `vt_input_write` on the terminal with this id. */
    method TypeTo(id: int, src: seq<byte>) returns (w: int)
      requires Shown() && RingsOk()
      modifies this`terms, this`held, repr
      ensures Shown() && RingsOk() && (Seen(), Reply(w, [])) == CallOne(old(Seen()), Op.Type(id, src))
    {
      ShowsKeys(slots[..], held, terms);
      var i := Get(id);
      if i < 0 {
        return -1;
      }
      ghost var t, u := slots[..], held;
      w := PutInput(i, src);
      assert slots[..] == t;
      ShowsWritten(t, u, terms, i, held[i]);
      terms := terms[id := held[i]];
    }

    /** `vt_output_read` on the terminal with this id. */
    method ReadFrom(id: int, n: nat) returns (r: int, data: seq<byte>)
      requires Shown() && RingsOk()
      modifies this`terms, this`held, repr
      ensures Shown() && RingsOk()
      ensures (Seen(), Reply(r, data)) == CallOne(old(Seen()), Op.Read(id, n))
    {
      ShowsKeys(slots[..], held, terms);
      var i := Get(id);
      if i < 0 {
        return -1, [];
      }
      ghost var t, u := slots[..], held;
      data := TakeBytes(i, n);
      r := |data|;
      assert slots[..] == t;
      ShowsWritten(t, u, terms, i, held[i]);
      terms := terms[id := held[i]];
    }

    // ---- runs ----

    ghost function Seen(): View
      reads this
    {
      View(terms, counter, focused)
    }

    /** Over any run, who is live and with which unread bytes, who has the focus, every id given out and every byte
        handed out are those of the view. */
    method Run(ops: seq<Op>) returns (log: seq<Reply>)
      requires Shown() && RingsOk()
      requires forall i | 0 <= i < |ops| && ops[i].Focus? :: NONE <= ops[i].id
      modifies this, slots, repr
      ensures Shown() && RingsOk() && (Seen(), log) == Calls(old(Seen()), ops)
    {
      log := [];
      assert ops[..0] == [];
      for i := 0 to |ops|
        invariant Shown() && RingsOk() && (Seen(), log) == Calls(old(Seen()), ops[..i])
      {
        assert ops[..i + 1][..i] == ops[..i];
        var reply := Call(ops[i]);
        log := log + [reply];
      }
      assert ops[..|ops|] == ops;
    }

    /** What creation does to the view. */
    method Create() returns (id: int)
      requires Shown() && RingsOk()
      modifies this`counter, this`focused, this`terms, this`held, slots, repr
      ensures Shown() && RingsOk() && (Seen(), Reply(id, [])) == CallOne(old(Seen()), Op.Create)
    {
      ghost var t, v := slots[..], Seen();
      IdsCount(t);
      ShowsKeys(t, held, terms);
      assert |v.terms.Keys| >= 16 <==> Full(t);
      id := New();
      assert id == NONE <==> Full(t);
      CreateIs(v, Seen(), id);
    }

    method Call(op: Op) returns (reply: Reply)
      requires Shown() && RingsOk() && (op.Focus? ==> NONE <= op.id)
      modifies this, slots, repr
      ensures Shown() && RingsOk() && (Seen(), reply) == CallOne(old(Seen()), op)
    {
      var id, data := 0, [];
      match op {
        case Create => id := Create();
        case Destroy(x) => Remove(x);
        case Focus(x) => SetFocus(x);
        case Write(x, src) => id := WriteTo(x, src);
        case Read(x, n) => id, data := ReadFrom(x, n);
        case Type(x, src) => id := TypeTo(x, src);
      }
      reply := Reply(id, data);
    }

    /** The view of a sound table is sound. */
    lemma SeenOk()
      requires Shown() && RingsOk()
      ensures ViewOk(Seen())
    {
      IdsCount(slots[..]);
      ShowsKeys(slots[..], held, terms);
      forall x | x in terms ensures 0 <= x < counter && |terms[x].input| <= 4096 && |terms[x].output| <= 65536 {
        assert Owned(slots[..], x);
        var i :| 0 <= i < VT_MAX && Live(slots[..][i]) && slots[..][i].id == x;
        assert ShownAt(slots[..], held, terms, i) && terms[x] == held[i];
        assert inputs[i].Valid() && outputs[i].Valid();
      }
    }
  }

  /** At most one terminal has the focus, and it is the recorded one. */
  lemma OneFocused(t: seq<Slot>, counter: nat, focused: int)
    requires TableOk(t, counter, focused)
    ensures focused == NONE <==> forall i | 0 <= i < VT_MAX :: t[i].state != Focused
    ensures forall i, j | 0 <= i < j < VT_MAX :: !(t[i].state == Focused && t[j].state == Focused)
  {
    forall i | 0 <= i < VT_MAX && t[i].state == Focused ensures Live(t[i]) && t[i].id == focused && focused != NONE {}
    if focused != NONE {
      var i :| 0 <= i < |t| && Live(t[i]) && t[i].id == focused;
      assert t[i].state == Focused;
    }
  }
}
