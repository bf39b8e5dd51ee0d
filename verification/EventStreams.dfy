/** The event ring under interleaving: a producer thread publishing step by step, a reactor thread
    attaching, draining and reclaiming streams step by step. Loads and stores of head and tail are
    atomic; a slot copy is one step. */
module EventStreams {
  import opened Prelude
  import opened Circular

  /** An event-stream connection. `start`, `got` and `lines` are history: where in the log it attached,
      the records its cursor has passed, and the lines it was written. */
  datatype Conn<R> = Off | On(cursor: nat, start: nat, got: seq<R>, lines: seq<R>)

  datatype Producer<R> = Idle | Loaded(event: R) | Stored(event: R)

  /** `endPos` and `pos` are history: the log positions the loaded values stand for. */
  datatype Consumer<R> =
    | Free
    | Draining(conn: nat, end: nat, idx: nat, out: seq<R>, limit: nat, endPos: nat)
    | Releasing(cursor: nat, pos: nat)

  /** `fits` says which records make a line that fits the write buffer; the others are passed over.
      `log` and `base` are history: everything published, and how much of it was reclaimed. */
  datatype State<!R> = State(slots: seq<R>, head: nat, tail: nat, conns: seq<Conn<R>>, producer: Producer<R>,
                             consumer: Consumer<R>, fits: R -> bool, log: seq<R>, base: nat)

  datatype Event<R> =
    | PublishLoad(event: R)
    | PublishCopy
    | PublishStore
    | Attach(conn: nat)
    | Detach(conn: nat)
    | DrainLoad(conn: nat, limit: nat)
    | DrainCopy
    | DrainEnd(sent: nat)
    | ReclaimLoad
    | ReclaimStore

  /** The records among `xs` that make a line. */
  function Fitting<R>(fits: R -> bool, xs: seq<R>): seq<R> {
    if xs == [] then [] else (if fits(xs[0]) then [xs[0]] else []) + Fitting(fits, xs[1..])
  }

  lemma {:induction false} FittingAppend<R>(fits: R -> bool, a: seq<R>, b: seq<R>)
    ensures Fitting(fits, a + b) == Fitting(fits, a) + Fitting(fits, b)
    decreases |a|
  {
    if a == [] {
      assert a + b == b;
    } else {
      assert (a + b)[1..] == a[1..] + b;
      FittingAppend(fits, a[1..], b);
      Assoc(if fits(a[0]) then [a[0]] else [], Fitting(fits, a[1..]), Fitting(fits, b));
    }
  }

  function Successor(n: nat, i: nat): nat { if i + 1 < n then i + 1 else 0 }

  /** The reclaim scan: the cursor nearest to the tail, the head when no stream is attached. */
  ghost function Nearest<R>(conns: seq<Conn<R>>, n: nat, tail: nat, best: nat, have: bool): (r: nat)
    requires tail < n && best < n && forall c :: c in conns && c.On? ==> c.cursor < n
    ensures r < n && (r == best || exists i :: 0 <= i < |conns| && conns[i].On? && r == conns[i].cursor)
    ensures have ==> Dist(n, tail, r) <= Dist(n, tail, best)
    ensures forall i :: 0 <= i < |conns| && conns[i].On? ==>
              conns[i] in conns && Dist(n, tail, r) <= Dist(n, tail, conns[i].cursor)
    decreases |conns|
  {
    if conns == [] then best
    else if conns[0].On?
            && (assert conns[0] in conns; !have || Dist(n, tail, conns[0].cursor) < Dist(n, tail, best)) then
      Nearest(conns[1..], n, tail, conns[0].cursor, true)
    else Nearest(conns[1..], n, tail, best, have)
  }

  ghost predicate Indices<R>(s: State<R>) {
    && s.head < |s.slots| && s.tail < |s.slots|
    && (forall c :: c in s.conns && c.On? ==> c.cursor < |s.slots|)
    && (s.consumer.Draining? ==>
          s.consumer.conn < |s.conns| && s.conns[s.consumer.conn].On? && s.consumer.idx < |s.slots|)
    && (s.consumer.Releasing? ==> s.consumer.cursor < |s.slots|)
  }

  /** The connection after its cursor has passed `more`, the fitting ones written. A stall leaves the
      cursor right after the stalled line. */
  ghost function Given<R>(s: State<R>, c: Conn<R>, more: seq<R>): Conn<R>
    requires c.On? && c.cursor < |s.slots| && |more| <= |s.slots|
  {
    On(At(|s.slots|, c.cursor, |more|), c.start, c.got + more, c.lines + Fitting(s.fits, more))
  }

  ghost function Step<R>(s: State<R>, e: Event<R>): Option<State<R>>
    requires Indices(s)
  {
    var n := |s.slots|;
    match e
    case PublishLoad(x) =>
      if !s.producer.Idle? then None
      else if Successor(n, s.head) == s.tail then Some(s) // full: refused
      else Some(s.(producer := Loaded(x)))
    case PublishCopy =>
      if !s.producer.Loaded? then None
      else Some(s.(slots := s.slots[s.head := s.producer.event], producer := Stored(s.producer.event)))
    case PublishStore =>
      if !s.producer.Stored? then None
      else Some(s.(head := Successor(n, s.head), producer := Idle, log := s.log + [s.producer.event]))
    case Attach(i) =>
      if !s.consumer.Free? || i >= |s.conns| || s.conns[i].On? then None
      else Some(s.(conns := s.conns[i := On(s.head, |s.log|, [], [])]))
    case Detach(i) =>
      if !s.consumer.Free? || i >= |s.conns| then None else Some(s.(conns := s.conns[i := Off]))
    case DrainLoad(i, limit) =>
      if !s.consumer.Free? || i >= |s.conns| || s.conns[i].Off? then None
      else Some(s.(consumer := Draining(i, s.head, s.conns[i].cursor, [], limit, |s.log|)))
    case DrainCopy =>
      if !s.consumer.Draining? || s.consumer.idx == s.consumer.end || |s.consumer.out| >= s.consumer.limit then None
      else Some(s.(consumer := s.consumer.(idx := Successor(n, s.consumer.idx),
                                           out := s.consumer.out + [s.slots[s.consumer.idx]])))
    case DrainEnd(sent) =>
      if !s.consumer.Draining? || sent > |s.consumer.out| || sent > n
         || (s.consumer.idx != s.consumer.end && |s.consumer.out| < s.consumer.limit)
         || (sent < |s.consumer.out| && (sent == 0 || !s.fits(s.consumer.out[sent - 1]))) then None
      else Some(s.(consumer := Free,
                   conns := s.conns[s.consumer.conn := Given(s, s.conns[s.consumer.conn], s.consumer.out[..sent])]))
    case ReclaimLoad =>
      if !s.consumer.Free? then None
      else
        var m := Nearest(s.conns, n, s.tail, s.head, false);
        Some(s.(consumer := Releasing(m, s.base + Dist(n, s.tail, m))))
    case ReclaimStore =>
      if !s.consumer.Releasing? then None
      else if Dist(n, s.tail, s.consumer.cursor) > Dist(n, s.tail, s.head) then Some(s.(consumer := Free))
      else Some(s.(consumer := Free, tail := s.consumer.cursor, base := s.base + Dist(n, s.tail, s.consumer.cursor)))
  }

  // -------------------------------------------------------------------------------------
  // The invariant
  // -------------------------------------------------------------------------------------

  /** The slot of a log position, as long as it is in the ring. */
  ghost predicate Stands<R>(s: State<R>, slot: nat, pos: nat) {
    && s.base <= pos <= |s.log| && s.tail < |s.slots| && pos - s.base < |s.slots|
    && slot == At(|s.slots|, s.tail, pos - s.base)
  }

  /** At most capacity minus one live records, each where it belongs. */
  ghost predicate Ring<R>(s: State<R>) {
    && Stands(s, s.head, |s.log|)
    && (forall k :: s.base <= k < |s.log| ==> s.slots[At(|s.slots|, s.tail, k - s.base)] == s.log[k])
  }

  ghost predicate Producing<R>(s: State<R>) {
    && (!s.producer.Idle? ==> |s.log| + 1 - s.base < |s.slots|)
    && (s.producer.Stored? ==> s.head < |s.slots| && s.slots[s.head] == s.producer.event)
  }

  /** A stream's cursor has passed exactly the log from where it attached, without gap or repetition,
      and it was written exactly the lines of it that fit. */
  ghost predicate Served<R>(s: State<R>, c: Conn<R>) {
    c.On? ==> && c.start + |c.got| <= |s.log| && c.got == s.log[c.start..c.start + |c.got|]
              && Stands(s, c.cursor, c.start + |c.got|) && c.lines == Fitting(s.fits, c.got)
  }

  ghost predicate Serving<R>(s: State<R>) { forall i :: 0 <= i < |s.conns| ==> Served(s, s.conns[i]) }

  ghost predicate Consuming<R>(s: State<R>) {
    match s.consumer
    case Free => true
    case Draining(i, end, idx, out, _, endPos) =>
      && i < |s.conns| && s.conns[i].On?
      && var p := s.conns[i].start + |s.conns[i].got|;
         && Stands(s, end, endPos) && p + |out| <= endPos && Stands(s, idx, p + |out|)
         && out == s.log[p..p + |out|]
    case Releasing(m, pos) =>
      && Stands(s, m, pos)
      && forall i :: 0 <= i < |s.conns| && s.conns[i].On? ==> pos <= s.conns[i].start + |s.conns[i].got|
  }

  ghost predicate Inv<R>(s: State<R>) { Ring(s) && Producing(s) && Serving(s) && Consuming(s) }

  lemma InvIndices<R>(s: State<R>)
    requires Inv(s)
    ensures Indices(s)
  {
  }

  // -------------------------------------------------------------------------------------
  // Every step keeps it
  // -------------------------------------------------------------------------------------

  /** The ring's origin and size are unchanged, the log may have grown. */
  ghost predicate Grows<R>(s: State<R>, s': State<R>) {
    s'.tail == s.tail && s'.base == s.base && |s'.slots| == |s.slots| && s.log <= s'.log && s'.fits == s.fits
  }

  lemma GrowsStands<R>(s: State<R>, s': State<R>, slot: nat, pos: nat)
    requires Grows(s, s') && Stands(s, slot, pos)
    ensures Stands(s', slot, pos)
  {
  }

  lemma StandsBound<R>(s: State<R>, slot: nat, pos: nat)
    requires Stands(s, slot, pos)
    ensures pos <= |s.log|
  {
  }

  lemma GrowsServed<R>(s: State<R>, s': State<R>, c: Conn<R>)
    requires Grows(s, s') && Served(s, c)
    ensures Served(s', c)
  {
    hide Stands;
    if c.On? { GrowsStands(s, s', c.cursor, c.start + |c.got|); }
  }

  lemma GrowsServing<R>(s: State<R>, s': State<R>)
    requires Grows(s, s') && Serving(s) && s'.conns == s.conns
    ensures Serving(s')
  {
    hide Served, Grows;
    forall i | 0 <= i < |s.conns| ensures Served(s', s'.conns[i]) { GrowsServed(s, s', s.conns[i]); }
  }

  lemma GrowsConsuming<R>(s: State<R>, s': State<R>)
    requires Grows(s, s') && Consuming(s) && s'.conns == s.conns && s'.consumer == s.consumer
    ensures Consuming(s')
  {
    hide Stands;
    match s.consumer
    case Free =>
    case Draining(i, end, idx, out, _, endPos) =>
      GrowsStands(s, s', end, endPos);
      var p := s.conns[i].start + |s.conns[i].got|;
      GrowsStands(s, s', idx, p + |out|);
      assert p + |out| <= |s.log| by { StandsBound(s, idx, p + |out|); }
      assert s'.log[p..p + |out|] == s.log[p..p + |out|];
    case Releasing(m, pos) => GrowsStands(s, s', m, pos);
  }

  lemma PublishLoadKeeps<R>(s: State<R>, e: Event<R>)
    requires Inv(s) && Indices(s) && e.PublishLoad? && Step(s, e).Some?
    ensures Inv(Step(s, e).value)
    ensures Step(s, e).value.producer.Loaded? <==> |s.log| - s.base < |s.slots| - 1
  {
    hide Serving, Consuming;
    var s' := Step(s, e).value;
    GrowsServing(s, s');
    GrowsConsuming(s, s');
  }

  /** The slot written is outside the live window, wherever the tail has moved since it was read. */
  lemma PublishCopyKeeps<R>(s: State<R>, e: Event<R>)
    requires Inv(s) && Indices(s) && e.PublishCopy? && Step(s, e).Some?
    ensures Inv(Step(s, e).value)
  {
    hide Serving, Consuming;
    var s' := Step(s, e).value;
    GrowsServing(s, s');
    GrowsConsuming(s, s');
    forall k | s.base <= k < |s.log| ensures s'.slots[At(|s.slots|, s.tail, k - s.base)] == s.log[k] {
      assert At(|s.slots|, s.tail, k - s.base) != s.head;
    }
  }

  lemma PublishStoreKeeps<R>(s: State<R>, e: Event<R>)
    requires Inv(s) && Indices(s) && e.PublishStore? && Step(s, e).Some?
    ensures Inv(Step(s, e).value)
  {
    hide Serving, Consuming;
    var s' := Step(s, e).value;
    GrowsServing(s, s');
    GrowsConsuming(s, s');
  }

  lemma AttachKeeps<R>(s: State<R>, e: Event<R>)
    requires Inv(s) && Indices(s) && (e.Attach? || e.Detach?) && Step(s, e).Some?
    ensures Inv(Step(s, e).value)
  {
    var s' := Step(s, e).value;
    forall i | 0 <= i < |s.conns| && i != e.conn ensures Served(s', s'.conns[i]) { GrowsServed(s, s', s.conns[i]); }
    assert Served(s', s'.conns[e.conn]);
    hide Served;
  }

  lemma DrainLoadKeeps<R>(s: State<R>, e: Event<R>)
    requires Inv(s) && Indices(s) && e.DrainLoad? && Step(s, e).Some?
    ensures Inv(Step(s, e).value)
  {
    assert Served(s, s.conns[e.conn]);
    hide Serving;
    GrowsServing(s, Step(s, e).value);
  }

  /** Short of the loaded head, the next slot holds the next record of the log. */
  lemma CopiesNext<R>(s: State<R>, pos: nat, idx: nat, end: nat, endPos: nat)
    requires Ring(s) && Stands(s, idx, pos) && Stands(s, end, endPos) && pos <= endPos && idx != end
    ensures pos < endPos && s.slots[idx] == s.log[pos] && Stands(s, Successor(|s.slots|, idx), pos + 1)
  {
  }

  lemma DrainCopyKeeps<R>(s: State<R>, e: Event<R>)
    requires Inv(s) && Indices(s) && e.DrainCopy? && Step(s, e).Some?
    ensures Inv(Step(s, e).value)
  {
    hide Serving, Ring, Stands, Nearest;
    var s' := Step(s, e).value;
    GrowsServing(s, s');
    SameRing(s, s');
    var c := s.conns[s.consumer.conn];
    var p := c.start + |c.got|;
    CopiesNext(s, p + |s.consumer.out|, s.consumer.idx, s.consumer.end, s.consumer.endPos);
    GrowsStands(s, s', s'.consumer.idx, p + |s'.consumer.out|);
    GrowsStands(s, s', s.consumer.end, s.consumer.endPos);
    StandsBound(s, s'.consumer.idx, p + |s'.consumer.out|);
    assert s'.consumer.out == s.log[p..p + |s'.consumer.out|];
  }

  lemma GivenMore<R>(s: State<R>, s': State<R>, sent: nat)
    requires Consuming(s) && s.consumer.Draining? && Served(s, s.conns[s.consumer.conn]) && sent <= |s.consumer.out|
    requires Grows(s, s') && s'.log == s.log && |s'.conns| == |s.conns| && sent <= |s.slots|
    requires var c := s.conns[s.consumer.conn];
             c.cursor < |s.slots| && s'.conns[s.consumer.conn] == Given(s, c, s.consumer.out[..sent])
    ensures Served(s', s'.conns[s.consumer.conn])
  {
    var c := s.conns[s.consumer.conn];
    var p := c.start + |c.got|;
    AtAt(|s.slots|, s.tail, p - s.base, sent);
    assert c.got + s.consumer.out[..sent] == s.log[c.start..p + sent];
    FittingAppend(s.fits, c.got, s.consumer.out[..sent]);
  }

  lemma DrainEndKeeps<R>(s: State<R>, e: Event<R>)
    requires Inv(s) && Indices(s) && e.DrainEnd? && Step(s, e).Some?
    ensures Inv(Step(s, e).value)
  {
    hide Nearest, Fitting, Stands, Ring;
    var s' := Step(s, e).value;
    var i := s.consumer.conn;
    assert Served(s, s.conns[i]);
    hide Served, Given;
    GivenMore(s, s', e.sent);
    forall k | 0 <= k < |s.conns| && k != i ensures Served(s', s'.conns[k]) { GrowsServed(s, s', s.conns[k]); }
    SameRing(s, s');
  }

  lemma ServedDist<R>(s: State<R>, c: Conn<R>)
    requires c.On? && Served(s, c)
    ensures c.cursor < |s.slots| && Dist(|s.slots|, s.tail, c.cursor) == c.start + |c.got| - s.base
  {
    DistAt(|s.slots|, s.tail, c.start + |c.got| - s.base);
  }

  lemma NearestStands<R>(s: State<R>, m: nat)
    requires Ring(s) && Serving(s)
    requires m == s.head || exists i :: 0 <= i < |s.conns| && s.conns[i].On? && m == s.conns[i].cursor
    ensures m < |s.slots| && Stands(s, m, s.base + Dist(|s.slots|, s.tail, m))
  {
    if m == s.head {
      DistAt(|s.slots|, s.tail, |s.log| - s.base);
    } else {
      var i :| 0 <= i < |s.conns| && s.conns[i].On? && m == s.conns[i].cursor;
      assert Served(s, s.conns[i]);
      ServedDist(s, s.conns[i]);
    }
  }

  /** The scan's result is at or before every stream's position. */
  lemma NearestFirst<R>(s: State<R>, m: nat, i: nat)
    requires Ring(s) && Serving(s) && Indices(s) && m == Nearest(s.conns, |s.slots|, s.tail, s.head, false)
    requires i < |s.conns| && s.conns[i].On?
    ensures s.base + Dist(|s.slots|, s.tail, m) <= s.conns[i].start + |s.conns[i].got|
  {
    hide Nearest, Ring, Served, Dist;
    assert Served(s, s.conns[i]);
    ServedDist(s, s.conns[i]);
  }

  lemma ScanKeeps<R>(s: State<R>, s': State<R>, m: nat)
    requires Ring(s) && Producing(s) && Serving(s) && Indices(s)
    requires m == Nearest(s.conns, |s.slots|, s.tail, s.head, false) && m < |s.slots|
    requires s' == s.(consumer := Releasing(m, s.base + Dist(|s.slots|, s.tail, m)))
    ensures Inv(s')
  {
    hide Serving, Nearest, Dist, Indices, Ring, Stands;
    forall i | 0 <= i < |s.conns| && s.conns[i].On?
      ensures s'.consumer.pos <= s.conns[i].start + |s.conns[i].got| {
      NearestFirst(s, m, i);
    }
    ScanStands(s, m);
    GrowsServing(s, s');
    GrowsStands(s, s', m, s'.consumer.pos);
    SameRing(s, s');
  }

  lemma ScanStands<R>(s: State<R>, m: nat)
    requires Ring(s) && Serving(s) && Indices(s) && m == Nearest(s.conns, |s.slots|, s.tail, s.head, false)
    ensures m < |s.slots| && Stands(s, m, s.base + Dist(|s.slots|, s.tail, m))
  {
    hide Serving, Ring, Stands, Dist;
    NearestStands(s, m);
  }

  lemma SameRing<R>(s: State<R>, s': State<R>)
    requires Ring(s) && Grows(s, s') && s'.slots == s.slots && s'.head == s.head && s'.log == s.log
    ensures Ring(s')
  {
  }

  lemma ReclaimLoadKeeps<R>(s: State<R>, e: Event<R>)
    requires Inv(s) && Indices(s) && e.ReclaimLoad? && Step(s, e).Some?
    ensures Inv(Step(s, e).value)
  {
    hide Nearest, Dist, Ring, Serving, Producing, At;
    ScanKeeps(s, Step(s, e).value, Nearest(s.conns, |s.slots|, s.tail, s.head, false));
  }

  /** The guard of the release never refuses a reclaim, and no stream loses a record to it. */
  lemma ReclaimStoreKeeps<R>(s: State<R>, e: Event<R>)
    requires Inv(s) && Indices(s) && e.ReclaimStore? && Step(s, e).Some?
    ensures Inv(Step(s, e).value)
    ensures Step(s, e).value.base == s.consumer.pos
  {
    var s' := Step(s, e).value;
    DistAt(|s.slots|, s.tail, s.consumer.pos - s.base);
    DistAt(|s.slots|, s.tail, |s.log| - s.base);
    assert Moved(s, s') && s'.base == s.consumer.pos;
    hide Serving, Dist, Served, Ring;
    ReclaimedRing(s, s');
    forall i | 0 <= i < |s.conns| ensures Served(s', s'.conns[i]) { ServedStill(s, s', i); }
    AllServed(s');
  }

  /** `s'` is `s` with the tail moved to a live position. */
  ghost predicate Moved<R>(s: State<R>, s': State<R>) {
    && s'.slots == s.slots && s'.log == s.log && s'.head == s.head && s'.conns == s.conns && s'.fits == s.fits
    && s.base <= s'.base <= |s.log| && Stands(s, s'.tail, s'.base)
  }

  lemma Reclaimed<R>(s: State<R>, s': State<R>, slot: nat, pos: nat)
    requires Moved(s, s') && Stands(s, slot, pos) && s'.base <= pos
    ensures Stands(s', slot, pos)
  {
    AtAt(|s.slots|, s.tail, s'.base - s.base, pos - s'.base);
  }

  lemma ReclaimedRing<R>(s: State<R>, s': State<R>)
    requires Moved(s, s') && Ring(s)
    ensures Ring(s')
  {
    Reclaimed(s, s', s.head, |s.log|);
    forall k | s'.base <= k < |s.log| ensures s'.slots[At(|s.slots|, s'.tail, k - s'.base)] == s.log[k] {
      AtAt(|s.slots|, s.tail, s'.base - s.base, k - s'.base);
    }
  }

  lemma ServedStill<R>(s: State<R>, s': State<R>, i: nat)
    requires Moved(s, s') && i < |s.conns| && Serving(s)
    requires s.conns[i].On? ==> s'.base <= s.conns[i].start + |s.conns[i].got|
    ensures Served(s', s'.conns[i])
  {
    var c := s.conns[i];
    assert Served(s, c);
    if c.On? { Reclaimed(s, s', c.cursor, c.start + |c.got|); }
  }

  lemma AllServed<R>(s: State<R>)
    requires forall i :: 0 <= i < |s.conns| ==> Served(s, s.conns[i])
    ensures Serving(s)
  {
  }

  lemma StepKeeps<R>(s: State<R>, e: Event<R>)
    requires Inv(s) && Indices(s) && Step(s, e).Some?
    ensures Inv(Step(s, e).value)
  {
    hide Inv, Indices, Step;
    match e
    case PublishLoad(_) => PublishLoadKeeps(s, e);
    case PublishCopy => PublishCopyKeeps(s, e);
    case PublishStore => PublishStoreKeeps(s, e);
    case Attach(_) => AttachKeeps(s, e);
    case Detach(_) => AttachKeeps(s, e);
    case DrainLoad(_, _) => DrainLoadKeeps(s, e);
    case DrainCopy => DrainCopyKeeps(s, e);
    case DrainEnd(_) => DrainEndKeeps(s, e);
    case ReclaimLoad => ReclaimLoadKeeps(s, e);
    case ReclaimStore => ReclaimStoreKeeps(s, e);
  }

  // -------------------------------------------------------------------------------------
  // Runs
  // -------------------------------------------------------------------------------------

  /** Events possible one after the other lead from `s` to `s'`. */
  ghost predicate Runs<R>(s: State<R>, es: seq<Event<R>>, s': State<R>)
    decreases |es|
  {
    if es == [] then s' == s else Indices(s) && Step(s, es[0]).Some? && Runs(Step(s, es[0]).value, es[1..], s')
  }

  lemma {:induction false} RunsKeep<R>(s: State<R>, es: seq<Event<R>>, s': State<R>)
    requires Inv(s) && Runs(s, es, s')
    ensures Inv(s')
    decreases |es|
  {
    hide Inv, Indices, Step;
    if es != [] {
      StepKeeps(s, es[0]);
      RunsKeep(Step(s, es[0]).value, es[1..], s');
    }
  }

  /** An empty ring with no stream attached. */
  ghost predicate Fresh<R>(s: State<R>) {
    && |s.slots| > 0 && s.head == 0 && s.tail == 0 && s.log == [] && s.base == 0
    && s.producer.Idle? && s.consumer.Free? && forall i :: 0 <= i < |s.conns| ==> s.conns[i].Off?
  }

  /** Whatever the two threads do and however their steps interleave: at most capacity minus one
      records are live and every live one is intact in its slot, every attached stream's cursor has
      passed exactly the records published since it attached, in order, without gap or repetition, it
      was written exactly the lines of those that fit the write buffer, and what its cursor has not
      passed yet is still in the ring. */
  lemma StreamsExact<R>(s: State<R>, es: seq<Event<R>>, s': State<R>)
    requires Fresh(s) && Runs(s, es, s')
    ensures Indices(s') && s'.base <= |s'.log| < s'.base + |s'.slots|
    ensures forall k :: s'.base <= k < |s'.log| ==> s'.slots[At(|s'.slots|, s'.tail, k - s'.base)] == s'.log[k]
    ensures forall i :: 0 <= i < |s'.conns| && s'.conns[i].On? ==>
              var c := s'.conns[i];
              && s'.base <= c.start + |c.got| <= |s'.log|
              && c.got == s'.log[c.start..c.start + |c.got|] && c.lines == Fitting(s'.fits, c.got)
  {
    hide Runs, Step;
    RunsKeep(s, es, s');
    InvIndices(s');
    forall i | 0 <= i < |s'.conns| && s'.conns[i].On? ensures Served(s', s'.conns[i]) {}
  }
}
