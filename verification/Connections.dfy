/** Database handles that share named connections through a reference count kept in a
    signed 8-bit counter. */
module Connections {

  /** One handle; the empty connection name is the invalid database. */
  datatype Slot = Slot(connection: string, open: bool)

  /** How the per-connection counter is stored. */
  datatype Counter = Int8 | Unbounded

  datatype Pool<!H> = Pool(
    slots: map<H, Slot>,           // the handles in existence
    counts: map<string, int>,      // m_open_connections_count
    registered: set<string>,       // connection names known to the database driver
    connected: set<string>)        // connections that are open

  function ToInt8(n: int): int {
    (n + 128) % 256 - 128
  }

  function Stored(c: Counter, n: int): int {
    if c.Int8? then ToInt8(n) else n
  }

  function Count<H>(p: Pool<H>, name: string): int {
    if name in p.counts then p.counts[name] else 0
  }

  function OpenOn<H>(p: Pool<H>, name: string): set<H> {
    set h | h in p.slots && p.slots[h] == Slot(name, true)
  }

  /* ---------- the operations ---------- */

  function Add<H>(c: Counter, p: Pool<H>, name: string, d: int): Pool<H> {
    p.(counts := p.counts[name := Stored(c, Count(p, name) + d)])
  }

  /** Looking a registered name up opens the connection, when the driver manages to; an
      unknown name is only registered. */
  function LookedUp<H>(p: Pool<H>, name: string, opens: bool): Pool<H> {
    if name in p.registered
    then if opens then p.(connected := p.connected + {name}) else p
    else p.(registered := p.registered + {name})
  }

  function Constructed<H>(p: Pool<H>, h: H, name: string, opens: bool): Pool<H> {
    LookedUp(p, name, opens).(slots := p.slots[h := Slot(name, false)])
  }

  function DefaultConstructed<H>(p: Pool<H>, h: H): Pool<H> {
    p.(slots := p.slots[h := Slot("", false)])
  }

  function Opened<H>(c: Counter, p: Pool<H>, h: H, opens: bool): Pool<H>
    requires h in p.slots
  {
    var name := p.slots[h].connection;
    if name == "" then p
    else if name in p.connected then
      if p.slots[h].open then p
      else Add(c, p, name, 1).(slots := p.slots[h := Slot(name, true)])
    else if !opens then p
    else Add(c, p, name, 1).(slots := p.slots[h := Slot(name, true)], connected := p.connected + {name})
  }

  /** The shared half of close and of the destructor. */
  function Released<H>(c: Counter, p: Pool<H>, name: string): Pool<H> {
    var q := Add(c, p, name, -1);
    if Count(q, name) <= 0 then q.(connected := p.connected - {name}) else q
  }

  function Closed<H>(c: Counter, p: Pool<H>, h: H): Pool<H>
    requires h in p.slots
  {
    var slot := p.slots[h];
    if !slot.open then p
    else Released(c, p, slot.connection).(slots := p.slots[h := slot.(open := false)])
  }

  function Destroyed<H>(c: Counter, p: Pool<H>, h: H): Pool<H>
    requires h in p.slots
  {
    var slot := p.slots[h];
    (if slot.open then Released(c, p, slot.connection) else p).(slots := p.slots - {h})
  }

  /** Copy construction and copy assignment share their effect: `h` becomes like `other`. */
  function Copied<H>(c: Counter, p: Pool<H>, h: H, other: H): Pool<H>
    requires other in p.slots
  {
    var slot := p.slots[other];
    (if slot.open then Add(c, p, slot.connection, 1) else p).(slots := p.slots[h := slot])
  }

  function Reconnected<H>(p: Pool<H>, h: H, name: string, opens: bool): Pool<H>
    requires h in p.slots
  {
    if p.slots[h].connection == name then p
    else LookedUp(p, name, opens).(slots := p.slots[h := p.slots[h].(connection := name)])
  }

  datatype Operation<!H> =
    | Construct(h: H, name: string, opens: bool)
    | ConstructDefault(h: H)
    | Open(h: H, opens: bool)
    | Close(h: H)
    | Destroy(h: H)
    | Copy(h: H, other: H)
    | Assign(h: H, other: H)
    | Connect(h: H, name: string, opens: bool)

  predicate Wellformed<H>(p: Pool<H>, op: Operation<H>) {
    match op
    case Construct(h, name, _) => h !in p.slots && name != ""
    case ConstructDefault(h) => h !in p.slots
    case Copy(h, other) => h !in p.slots && other in p.slots
    case Assign(h, other) => h in p.slots && other in p.slots
    case Connect(h, name, _) => h in p.slots && name != ""
    case _ => op.h in p.slots
  }

  function Apply<H>(c: Counter, p: Pool<H>, op: Operation<H>): Pool<H>
    requires Wellformed(p, op)
  {
    match op
    case Construct(h, name, opens) => Constructed(p, h, name, opens)
    case ConstructDefault(h) => DefaultConstructed(p, h)
    case Open(h, opens) => Opened(c, p, h, opens)
    case Close(h) => Closed(c, p, h)
    case Destroy(h) => Destroyed(c, p, h)
    case Copy(h, other) => Copied(c, p, h, other)
    case Assign(h, other) => Copied(c, p, h, other)
    case Connect(h, name, opens) => Reconnected(p, h, name, opens)
  }

  /* ---------- what the count means ---------- */

  ghost predicate CountsRight<H>(c: Counter, p: Pool<H>) {
    forall name :: Count(p, name) == Stored(c, |OpenOn(p, name)|)
  }

  /** The count is the number of open handles, and open handles have an open connection. */
  ghost predicate Consistent<H>(c: Counter, p: Pool<H>) {
    && CountsRight(c, p)
    && (forall name :: OpenOn(p, name) != {} ==> name in p.connected)
    && OpenOn(p, "") == {}
    && Registered(p)
  }

  /** Every named handle and every open connection is known to the driver. */
  predicate Registered<H>(p: Pool<H>) {
    && (forall h :: h in p.slots ==> p.slots[h].connection == "" || p.slots[h].connection in p.registered)
    && p.connected <= p.registered
  }

  ghost predicate ConnectedExactly<H>(p: Pool<H>) {
    forall name :: name in p.connected <==> OpenOn(p, name) != {}
  }

  /** `connect` and `operator=` forget what the handle held: they suit a closed handle. */
  predicate Disciplined<H>(p: Pool<H>, op: Operation<H>)
    requires Wellformed(p, op)
  {
    match op
    case Assign(h, _) => !p.slots[h].open
    case Connect(h, name, _) => !p.slots[h].open || p.slots[h].connection == name
    case _ => true
  }

  /** A name lookup that does not open an idle connection behind the count's back. */
  predicate Quiet<H>(p: Pool<H>, op: Operation<H>)
    requires Wellformed(p, op)
  {
    match op
    case Construct(_, name, opens) => name in p.registered && opens ==> name in p.connected
    case Connect(h, name, opens) =>
      name in p.registered && opens && p.slots[h].connection != name ==> name in p.connected
    case _ => true
  }

  /** No connection has more open handles than the 8-bit counter bears. */
  ghost predicate Bounded<H>(p: Pool<H>) {
    forall name :: |OpenOn(p, name)| <= 128
  }

  /* ---------- how the count follows the open handles ---------- */

  lemma StoredAdd(c: Counter, n: int, d: int)
    ensures Stored(c, Stored(c, n) + d) == Stored(c, n + d)
  {
    if c.Int8? {
      var q := (n + 128) / 256;
      assert ToInt8(n) == n - 256 * q;
      var r := (n + d + 128) / 256;
      assert ToInt8(n + d) == n + d - 256 * r;
      assert (n - 256 * q + d + 128) / 256 == r - q;
    }
  }

  /** With at most 128 open handles, the counter after one release is positive exactly when
      a handle is left. */
  lemma CounterBears(c: Counter, open: int)
    requires 1 <= open && (c.Int8? ==> open <= 128)
    ensures Stored(c, open - 1) > 0 <==> open > 1
  {
  }

  lemma Gain<H>(c: Counter, p: Pool<H>, q: Pool<H>, h: H, name: string)
    requires CountsRight(c, p)
    requires h in p.slots ==> !p.slots[h].open
    requires q.slots == p.slots[h := Slot(name, true)] && q.counts == Add(c, p, name, 1).counts
    ensures CountsRight(c, q)
    ensures OpenOn(q, name) == OpenOn(p, name) + {h}
    ensures forall n :: n != name ==> OpenOn(q, n) == OpenOn(p, n)
  {
    assert OpenOn(q, name) == OpenOn(p, name) + {h};
    StoredAdd(c, |OpenOn(p, name)|, 1);
    forall n | n != name ensures OpenOn(q, n) == OpenOn(p, n) {
      assert forall x :: x in OpenOn(q, n) <==> x in OpenOn(p, n);
    }
    forall n ensures Count(q, n) == Stored(c, |OpenOn(q, n)|) {
      assert Count(p, n) == Stored(c, |OpenOn(p, n)|);
    }
  }

  lemma Lose<H>(c: Counter, p: Pool<H>, q: Pool<H>, h: H, name: string)
    requires CountsRight(c, p)
    requires h in p.slots && p.slots[h] == Slot(name, true)
    requires q.slots == p.slots - {h} || q.slots == p.slots[h := Slot(name, false)]
    requires q.counts == Add(c, p, name, -1).counts
    ensures CountsRight(c, q)
    ensures OpenOn(q, name) == OpenOn(p, name) - {h} && h in OpenOn(p, name)
    ensures Count(q, name) == Stored(c, |OpenOn(p, name)| - 1)
    ensures forall n :: n != name ==> OpenOn(q, n) == OpenOn(p, n)
  {
    assert OpenOn(q, name) == OpenOn(p, name) - {h};
    StoredAdd(c, |OpenOn(p, name)|, -1);
    forall n | n != name ensures OpenOn(q, n) == OpenOn(p, n) {
      assert forall x :: x in OpenOn(q, n) <==> x in OpenOn(p, n);
    }
    forall n ensures Count(q, n) == Stored(c, |OpenOn(q, n)|) {
      assert Count(p, n) == Stored(c, |OpenOn(p, n)|);
    }
  }

  /** A closed slot coming, going or changing its connection name moves no count. */
  lemma Same<H>(c: Counter, p: Pool<H>, q: Pool<H>)
    requires CountsRight(c, p) && q.counts == p.counts
    requires forall h :: (h in q.slots && q.slots[h].open) <==> (h in p.slots && p.slots[h].open)
    requires forall h :: h in q.slots && h in p.slots && q.slots[h].open ==> q.slots[h] == p.slots[h]
    ensures CountsRight(c, q)
    ensures forall n :: OpenOn(q, n) == OpenOn(p, n)
  {
    forall n ensures OpenOn(q, n) == OpenOn(p, n) {
      assert forall x :: x in OpenOn(q, n) <==> x in OpenOn(p, n);
    }
    forall n ensures Count(q, n) == Stored(c, |OpenOn(q, n)|) {
      assert Count(p, n) == Stored(c, |OpenOn(p, n)|);
    }
  }

  /* ---------- one operation ---------- */

  lemma ReleaseConsistent<H>(c: Counter, p: Pool<H>, h: H, name: string, q: Pool<H>)
    requires Consistent(c, p) && (c.Int8? ==> Bounded(p))
    requires h in p.slots && p.slots[h] == Slot(name, true)
    requires q.slots == p.slots - {h} || q.slots == p.slots[h := Slot(name, false)]
    requires q == Released(c, p, name).(slots := q.slots)
    ensures Consistent(c, q)
    ensures name in q.connected <==> OpenOn(q, name) != {}
    ensures forall n :: n != name ==> OpenOn(q, n) == OpenOn(p, n)
  {
    Lose(c, p, q, h, name);
    CounterBears(c, |OpenOn(p, name)|);
    assert |OpenOn(q, name)| == |OpenOn(p, name)| - 1;
    assert OpenOn(q, name) != {} <==> |OpenOn(q, name)| > 0;
  }

  lemma CopyConsistent<H>(c: Counter, p: Pool<H>, h: H, other: H)
    requires Consistent(c, p) && other in p.slots
    requires h in p.slots ==> !p.slots[h].open
    ensures Consistent(c, Copied(c, p, h, other))
    ensures ConnectedExactly(p) ==> ConnectedExactly(Copied(c, p, h, other))
  {
    var q := Copied(c, p, h, other);
    if p.slots[other].open {
      assert other in OpenOn(p, p.slots[other].connection);
      Gain(c, p, q, h, p.slots[other].connection);
    } else {
      Same(c, p, q);
    }
  }

  lemma OpenConsistent<H>(c: Counter, p: Pool<H>, h: H, opens: bool)
    requires Consistent(c, p) && h in p.slots
    ensures Consistent(c, Opened(c, p, h, opens))
    ensures ConnectedExactly(p) ==> ConnectedExactly(Opened(c, p, h, opens))
  {
    var q, name := Opened(c, p, h, opens), p.slots[h].connection;
    if q != p {
      assert p.slots[h].open ==> h in OpenOn(p, name);
      Gain(c, p, q, h, name);
    }
  }

  lemma NamedConsistent<H>(c: Counter, p: Pool<H>, op: Operation<H>)
    requires Consistent(c, p) && Wellformed(p, op) && Disciplined(p, op)
    requires op.Construct? || op.ConstructDefault? || op.Connect?
    ensures Consistent(c, Apply(c, p, op))
  {
    Same(c, p, Apply(c, p, op));
  }

  lemma StepConsistent<H>(c: Counter, p: Pool<H>, op: Operation<H>)
    requires Consistent(c, p) && Wellformed(p, op) && Disciplined(p, op)
    requires c.Int8? ==> Bounded(p)
    ensures Consistent(c, Apply(c, p, op))
    ensures op.Open? || op.Copy? || op.Assign? || op.Close? || op.Destroy? ==>
              (ConnectedExactly(p) ==> ConnectedExactly(Apply(c, p, op)))
  {
    var q := Apply(c, p, op);
    match op
    case Construct(h, name, opens) => NamedConsistent(c, p, op);
    case ConstructDefault(h) => NamedConsistent(c, p, op);
    case Connect(h, name, opens) => NamedConsistent(c, p, op);
    case Open(h, opens) => OpenConsistent(c, p, h, opens);
    case Copy(h, other) => CopyConsistent(c, p, h, other);
    case Assign(h, other) => CopyConsistent(c, p, h, other);
    case _ =>
      var h := op.h;
      if p.slots[h].open { ReleaseConsistent(c, p, h, p.slots[h].connection, q); }
      else { Same(c, p, q); }
  }

  /** One operation keeps "connected exactly when some handle is open" unless it looks up
      the name of an idle connection, which the lookup opens. */
  lemma StaysExactIff<H>(c: Counter, p: Pool<H>, op: Operation<H>)
    requires Consistent(c, p) && Wellformed(p, op) && Disciplined(p, op)
    requires (c.Int8? ==> Bounded(p)) && ConnectedExactly(p)
    ensures ConnectedExactly(Apply(c, p, op)) <==> Quiet(p, op)
  {
    var q := Apply(c, p, op);
    StepConsistent(c, p, op);
    if op.Construct? || op.ConstructDefault? || op.Connect? {
      Same(c, p, q);
      if op.Connect? && p.slots[op.h].connection == op.name { assert q == p; }
      else if !op.ConstructDefault? {
        assert op.name in q.connected <==> op.name in p.connected || (op.name in p.registered && op.opens);
      }
    }
  }

  /** Closing a handle never disconnects another open handle, always disconnects after the
      last one, and touches no other connection: up to 128 handles open at once. */
  lemma CloseIsFair<H>(c: Counter, p: Pool<H>, h: H, other: H)
    requires Consistent(c, p) && (c.Int8? ==> Bounded(p))
    requires h in p.slots && p.slots[h].open && other in p.slots
    ensures var q := Closed(c, p, h);
      && !q.slots[h].open
      && (other != h && p.slots[other].open ==>
            q.slots[other] == p.slots[other] && q.slots[other].connection in q.connected)
      && (OpenOn(p, p.slots[h].connection) == {h} ==> p.slots[h].connection !in q.connected)
      && q.connected == Destroyed(c, p, h).connected
  {
    var q := Closed(c, p, h);
    var name := p.slots[h].connection;
    ReleaseConsistent(c, p, h, name, q);
    if other != h && p.slots[other].open {
      assert other in OpenOn(q, p.slots[other].connection);
    }
    Lose(c, p, q, h, name);
  }

  /** What closing one of n open handles does to the rest with the 8-bit counter, for every
      n: the bound of 128 is tight, and 129 to 257 handles all fail. */
  lemma EightBitClose<H>(p: Pool<H>, h: H)
    requires CountsRight(Int8, p) && h in p.slots && p.slots[h].open
    requires p.slots[h].connection in p.connected
    ensures var name := p.slots[h].connection;
            var n := |OpenOn(p, name)|;
      && n >= 1
      && (name in Closed(Int8, p, h).connected <==> 1 <= (n - 1) % 256 <= 127)
      && (n <= 128 ==> (name in Closed(Int8, p, h).connected <==> n > 1))
      && (129 <= n <= 257 ==> name !in Closed(Int8, p, h).connected)
  {
    var name := p.slots[h].connection;
    Lose(Int8, p, Closed(Int8, p, h), h, name);
    var n := |OpenOn(p, name)|;
    assert ToInt8(n - 1) > 0 <==> 1 <= (n - 1) % 256 <= 127 by { Int8Positive(n - 1); }
  }

  lemma Int8Positive(m: nat)
    ensures ToInt8(m) > 0 <==> 1 <= m % 256 <= 127
  {
    var q, r := m / 256, m % 256;
    assert m + 128 == 256 * q + (r + 128);
    if r < 128 { assert (m + 128) / 256 == q; } else { assert (m + 128) / 256 == q + 1; }
  }

  /** One handle more on a connection and then one less: the counts are back, and the
      connection is open as before. */
  lemma GainThenLose<H>(c: Counter, p: Pool<H>, q: Pool<H>, r: Pool<H>, h: H, name: string)
    requires CountsRight(c, p) && (h in p.slots ==> !p.slots[h].open)
    requires c.Int8? ==> |OpenOn(p, name)| < 128
    requires name in p.connected <==> OpenOn(p, name) != {}
    requires q.slots == p.slots[h := Slot(name, true)] && q.counts == Add(c, p, name, 1).counts
    requires r.slots == q.slots - {h} || r.slots == q.slots[h := Slot(name, false)]
    requires r == Released(c, q, name).(slots := r.slots) && q.connected == p.connected + {name}
    ensures r.connected == p.connected
    ensures forall n :: Count(r, n) == Count(p, n)
  {
    Gain(c, p, q, h, name);
    Lose(c, q, r, h, name);
    assert |OpenOn(q, name)| == |OpenOn(p, name)| + 1;
    CounterBears(c, |OpenOn(q, name)|);
    forall n ensures Count(r, n) == Count(p, n) {
      assert Count(p, n) == Stored(c, |OpenOn(p, n)|) && Count(r, n) == Stored(c, |OpenOn(r, n)|);
      assert n != name ==> OpenOn(r, n) == OpenOn(p, n);
      assert OpenOn(r, name) == OpenOn(p, name);
    }
  }

  /** A closed handle on a name, opened by a willing driver, is one more open handle there. */
  predicate OpensOn<H>(c: Counter, p: Pool<H>, q: Pool<H>, h: H, name: string) {
    && OpenOn(q, name) == OpenOn(p, name) + {h} && name in q.connected
    && Count(q, name) == Stored(c, |OpenOn(p, name)| + 1)
  }

  lemma OpenGains<H>(c: Counter, p: Pool<H>, h: H, name: string)
    requires CountsRight(c, p) && h in p.slots && p.slots[h] == Slot(name, false) && name != ""
    ensures OpensOn(c, p, Opened(c, p, h, true), h, name)
    ensures forall n :: n != name ==> OpenOn(Opened(c, p, h, true), n) == OpenOn(p, n)
    ensures forall n :: n != name ==> Count(Opened(c, p, h, true), n) == Count(p, n)
  {
    Gain(c, p, Opened(c, p, h, true), h, name);
    assert |OpenOn(p, name) + {h}| == |OpenOn(p, name)| + 1;
  }

  /** The same when the handle has come to that name, closed, since the pool `p`. */
  lemma ThenOpens<H>(c: Counter, p: Pool<H>, r: Pool<H>, h: H, name: string)
    requires CountsRight(c, p) && (h in p.slots ==> !p.slots[h].open) && name != ""
    requires r.slots == p.slots[h := Slot(name, false)] && r.counts == p.counts
    ensures OpensOn(c, p, Opened(c, r, h, true), h, name)
    ensures forall n :: n != name ==> OpenOn(Opened(c, r, h, true), n) == OpenOn(p, n)
    ensures forall n :: n != name ==> Count(Opened(c, r, h, true), n) == Count(p, n)
  {
    Same(c, p, r);
    OpenGains(c, r, h, name);
  }

  /** A handle constructed on a name and then opened is one more open handle on that name,
      and the connection is open. */
  lemma ConstructThenOpen<H>(c: Counter, p: Pool<H>, h: H, name: string, opens: bool)
    requires CountsRight(c, p) && h !in p.slots && name != ""
    ensures var q := Opened(c, Constructed(p, h, name, opens), h, true);
      && OpensOn(c, p, q, h, name)
      && forall n :: n != name ==> OpenOn(q, n) == OpenOn(p, n) && Count(q, n) == Count(p, n)
  {
    ThenOpens(c, p, Constructed(p, h, name, opens), h, name);
  }

  /** A closed handle moved to a name and then opened is one more open handle on that name,
      and the connection is open. */
  lemma ReconnectThenOpen<H>(c: Counter, p: Pool<H>, h: H, name: string, opens: bool)
    requires CountsRight(c, p) && h in p.slots && !p.slots[h].open && name != ""
    ensures var q := Opened(c, Reconnected(p, h, name, opens), h, true);
      && OpensOn(c, p, q, h, name)
      && forall n :: n != name ==> OpenOn(q, n) == OpenOn(p, n) && Count(q, n) == Count(p, n)
  {
    ThenOpens(c, p, Reconnected(p, h, name, opens), h, name);
  }

  /** A handle on no connection cannot be opened, whatever the driver. */
  lemma DefaultNeverOpens<H>(c: Counter, p: Pool<H>, h: H, opens: bool)
    requires h !in p.slots
    ensures var q := Opened(c, DefaultConstructed(p, h), h, opens);
      q == p.(slots := p.slots[h := q.slots[h]]) && !q.slots[h].open
  {
  }

  /** Opening a closed handle and closing it again restores everything. */
  lemma OpenThenClose<H>(c: Counter, p: Pool<H>, h: H)
    requires Consistent(c, p) && ConnectedExactly(p) && h in p.slots
    requires p.slots[h].connection != "" && !p.slots[h].open
    requires c.Int8? ==> forall name :: |OpenOn(p, name)| < 128
    ensures var q := Opened(c, p, h, true);
            var r := Closed(c, q, h);
      && q.slots == p.slots[h := p.slots[h].(open := true)] && p.slots[h].connection in q.connected
      && r.slots == p.slots && r.connected == p.connected
      && forall name :: Count(r, name) == Count(p, name)
  {
    var q, name := Opened(c, p, h, true), p.slots[h].connection;
    assert q.connected == p.connected + {name};
    GainThenLose(c, p, q, Closed(c, q, h), h, name);
  }

  /** Copying a handle and destroying the copy restores everything. */
  lemma CopyThenDestroy<H>(c: Counter, p: Pool<H>, h: H, other: H)
    requires Consistent(c, p) && ConnectedExactly(p) && h !in p.slots && other in p.slots
    requires c.Int8? ==> forall name :: |OpenOn(p, name)| < 128
    ensures var q := Copied(c, p, h, other);
            var r := Destroyed(c, q, h);
      && q.slots == p.slots[h := p.slots[other]]
      && r.slots == p.slots && r.connected == p.connected
      && forall name :: Count(r, name) == Count(p, name)
  {
    var q, name := Copied(c, p, h, other), p.slots[other].connection;
    if p.slots[other].open {
      assert other in OpenOn(p, name);
      assert q.connected == p.connected + {name};
      GainThenLose(c, p, q, Destroyed(c, q, h), h, name);
    }
  }

  lemma SameOpen<H>(p: Pool<H>, u: Pool<H>, name: string)
    requires p.slots == u.slots
    ensures OpenOn(p, name) == OpenOn(u, name)
  {
  }

  /* ---------- every run ---------- */

  function Empty<H>(): Pool<H> {
    Pool(map[], map[], {}, {})
  }

  ghost predicate Legal<H>(c: Counter, p: Pool<H>, ops: seq<Operation<H>>)
    decreases ops
  {
    && (c.Int8? ==> Bounded(p))
    && (ops == [] || (Wellformed(p, ops[0]) && Disciplined(p, ops[0])
                      && Legal(c, Apply(c, p, ops[0]), ops[1..])))
  }

  ghost predicate AllQuiet<H>(c: Counter, p: Pool<H>, ops: seq<Operation<H>>)
    requires Legal(c, p, ops)
    decreases ops
  {
    ops == [] || (Quiet(p, ops[0]) && AllQuiet(c, Apply(c, p, ops[0]), ops[1..]))
  }

  ghost function Run<H>(c: Counter, p: Pool<H>, ops: seq<Operation<H>>): Pool<H>
    requires Legal(c, p, ops)
    decreases ops
  {
    if ops == [] then p else Run(c, Apply(c, p, ops[0]), ops[1..])
  }

  lemma {:induction false} RunConsistent<H>(c: Counter, p: Pool<H>, ops: seq<Operation<H>>)
    requires Consistent(c, p) && Legal(c, p, ops)
    ensures Consistent(c, Run(c, p, ops))
    ensures ConnectedExactly(p) && AllQuiet(c, p, ops) ==> ConnectedExactly(Run(c, p, ops))
    decreases ops
  {
    if ops != [] {
      StepConsistent(c, p, ops[0]);
      if ConnectedExactly(p) { StaysExactIff(c, p, ops[0]); }
      RunConsistent(c, Apply(c, p, ops[0]), ops[1..]);
    }
  }

  ghost predicate ExactThroughout<H>(c: Counter, p: Pool<H>, ops: seq<Operation<H>>)
    requires Legal(c, p, ops)
    decreases ops
  {
    ConnectedExactly(p) && (ops == [] || ExactThroughout(c, Apply(c, p, ops[0]), ops[1..]))
  }

  /** Through a whole run, connections are open exactly when some handle is, exactly when no
      operation of the run looks an idle connection up. */
  lemma {:induction false} ExactThroughoutIff<H>(c: Counter, p: Pool<H>, ops: seq<Operation<H>>)
    requires Consistent(c, p) && ConnectedExactly(p) && Legal(c, p, ops)
    ensures ExactThroughout(c, p, ops) <==> AllQuiet(c, p, ops)
    decreases ops
  {
    if ops != [] {
      StepConsistent(c, p, ops[0]);
      StaysExactIff(c, p, ops[0]);
      if Quiet(p, ops[0]) { ExactThroughoutIff(c, Apply(c, p, ops[0]), ops[1..]); }
    }
  }

  /** Two handles constructed on one name, neither opened: the second construction looks the
      name up, and the connection is open. */
  lemma LookupOpensIdle<H>(c: Counter, h: H, g: H, name: string)
    requires h != g && name != ""
    ensures var ops := [Construct(h, name, false), Construct(g, name, true)];
      && Legal(c, Empty(), ops) && !AllQuiet(c, Empty(), ops)
      && name in Run(c, Empty(), ops).connected && OpenOn(Run(c, Empty(), ops), name) == {}
  {
    var first, second := Construct(h, name, false), Construct(g, name, true);
    var p0: Pool<H> := Empty();
    var p1 := Apply(c, p0, first);
    var p2 := Apply(c, p1, second);
    assert [first, second][1..] == [second] && [second][1..] == [];
    forall n ensures OpenOn(p0, n) == {} && OpenOn(p1, n) == {} && OpenOn(p2, n) == {} {}
    assert Legal(c, p2, []) && Legal(c, p1, [second]) && Legal(c, p0, [first, second]);
    assert Run(c, p0, [first, second]) == Run(c, p1, [second]) == Run(c, p2, []) == p2;
  }

  /** For every sequence of operations from an empty start: each count is the number of open
      handles (as an 8-bit value), and a connection is open exactly when that is positive. */
  lemma CountsOpenHandles<H>(c: Counter, ops: seq<Operation<H>>, name: string)
    requires Legal(c, Empty(), ops)
    ensures var p := Run(c, Empty(), ops);
      && Count(p, name) == Stored(c, |OpenOn(p, name)|)
      && (|OpenOn(p, name)| > 0 ==> name in p.connected)
      && (AllQuiet(c, Empty(), ops) ==> (name in p.connected <==> |OpenOn(p, name)| > 0))
  {
    var e: Pool<H> := Empty();
    assert forall n :: OpenOn(e, n) == {};
    RunConsistent(c, e, ops);
    var p := Run(c, Empty(), ops);
    assert OpenOn(p, name) != {} <==> |OpenOn(p, name)| > 0;
  }

  ghost predicate Refines<H>(p: Pool<H>, u: Pool<H>) {
    && Consistent(Int8, p) && Consistent(Unbounded, u)
    && p.slots == u.slots && p.registered == u.registered && p.connected == u.connected
  }

  lemma RefinesRelease<H>(p: Pool<H>, u: Pool<H>, h: H, name: string)
    requires Refines(p, u) && Bounded(p)
    requires h in p.slots && p.slots[h] == Slot(name, true)
    ensures Released(Int8, p, name).connected == Released(Unbounded, u, name).connected
  {
    var q := Released(Int8, p, name).(slots := p.slots - {h});
    var w := Released(Unbounded, u, name).(slots := u.slots - {h});
    ReleaseConsistent(Int8, p, h, name, q);
    ReleaseConsistent(Unbounded, u, h, name, w);
    SameOpen(q, w, name);
  }

  /** Apart from the counts and the disconnection, an operation does not see the counter. */
  lemma AlikeStep<H>(p: Pool<H>, u: Pool<H>, op: Operation<H>)
    requires p.slots == u.slots && p.registered == u.registered && p.connected == u.connected
    requires Wellformed(p, op)
    requires (op.Close? || op.Destroy?) && p.slots[op.h].open ==>
               var name := p.slots[op.h].connection;
               Released(Int8, p, name).connected == Released(Unbounded, u, name).connected
    ensures var q, w := Apply(Int8, p, op), Apply(Unbounded, u, op);
      q.slots == w.slots && q.registered == w.registered && q.connected == w.connected
  {
  }

  lemma RefinesStep<H>(p: Pool<H>, u: Pool<H>, op: Operation<H>)
    requires Refines(p, u) && Bounded(p) && Wellformed(p, op) && Disciplined(p, op)
    ensures Refines(Apply(Int8, p, op), Apply(Unbounded, u, op))
  {
    StepConsistent(Int8, p, op);
    StepConsistent(Unbounded, u, op);
    if (op.Close? || op.Destroy?) && p.slots[op.h].open {
      RefinesRelease(p, u, op.h, p.slots[op.h].connection);
    }
    AlikeStep(p, u, op);
  }

  /** The wrapping 8-bit counter refines an unbounded one on every run that never has more
      than 128 handles open on a connection. */
  lemma {:induction false} EightBitsRefine<H>(p: Pool<H>, u: Pool<H>, ops: seq<Operation<H>>)
    requires Refines(p, u) && Legal(Int8, p, ops)
    ensures Legal(Unbounded, u, ops)
    ensures Run(Int8, p, ops).slots == Run(Unbounded, u, ops).slots
    ensures Run(Int8, p, ops).connected == Run(Unbounded, u, ops).connected
    decreases ops
  {
    if ops != [] {
      RefinesStep(p, u, ops[0]);
      EightBitsRefine(Apply(Int8, p, ops[0]), Apply(Unbounded, u, ops[0]), ops[1..]);
    }
  }

  /** `connect` and `operator=` keep the counts right exactly on a closed handle (or when
      they change nothing): an open one leaves its count behind. */
  lemma DisciplineIsNeeded<H>(p: Pool<H>, op: Operation<H>)
    requires Consistent(Unbounded, p) && Wellformed(p, op)
    ensures CountsRight(Unbounded, Apply(Unbounded, p, op)) <==> Disciplined(p, op)
  {
    if Disciplined(p, op) {
      StepConsistent(Unbounded, p, op);
    } else {
      var q := Apply(Unbounded, p, op);
      var name := p.slots[op.h].connection;
      assert op.h in OpenOn(p, name);
      assert Count(p, name) == |OpenOn(p, name)|;
      if op.Assign? && p.slots[op.other] == p.slots[op.h] {
        assert OpenOn(q, name) == OpenOn(p, name);
        assert Count(q, name) == Count(p, name) + 1;
      } else {
        assert OpenOn(q, name) == OpenOn(p, name) - {op.h};
        assert Count(q, name) == Count(p, name);
      }
    }
  }
}
