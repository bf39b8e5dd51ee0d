/** The locks of the movement core, Python and native: every operation takes them in one fixed
    order, so no interleaving of any number of workers can deadlock. */
module LockOrder {
  import Prelude
  import opened Spatial

  // -------------------------------------------------------------------------------------
  // Locks, in nesting order
  // -------------------------------------------------------------------------------------

  type Lock = nat

  const CONTROL: Lock := 0
  const BOOK: Lock := 1 + STRIPES
  const NATIVE_CONTROL: Lock := 2 + STRIPES
  const NATIVE_BOOK: Lock := 3 + 2 * STRIPES
  const RECORD: Lock := 4 + 2 * STRIPES
  const RECORDER: Lock := 5 + 2 * STRIPES

  function Stripe(id: int): Lock { 1 + id % STRIPES }

  /** The native core numbers its actors from one. */
  function NativeStripe(id: int): Lock { 3 + STRIPES + (id - 1) % STRIPES }

  // -------------------------------------------------------------------------------------
  // What each operation does with them
  // -------------------------------------------------------------------------------------

  /** What the locks are for. A row is an actor in the table; `Book` is the dirty set, the epochs and the drop
      counter. */
  datatype Thing =
    | Row(id: int)
    | AllRows
    | Book
    | Bindings
    | NativeRow(id: int)
    | AllNativeRows
    | NativeBook
    | Ring
    | Recorder

  datatype Op = Acquire(lock: Lock) | Release(lock: Lock) | Touch(thing: Thing)

  type Program = seq<Op>

  /** The calls on the handler set; the flags say which branches a call takes. */
  datatype Call =
    | SpawnFresh(id: int, published: bool, recorded: bool)
    | SpawnKnown(id: int)
    | Move(id: int, published: bool, gateDropped: bool, recorded: bool)
    | Teleport(id: int, published: bool)
    | ActorState(id: int)
    | ActorStates
    | BindingStats
    | Bind
    | Chat(id: int, known: bool)
    | Flush(cells: nat)
    | NativeSpawnFresh(id: int, published: bool, recorded: bool)
    | NativeSpawnKnown(id: int)
    | NativeMove(id: int, published: bool, recorded: bool)
    | NativeTeleport(id: int, published: bool)
    | NativeActorState(id: int)
    | NativeActorStates
    | NativeChat(id: int, known: bool)
    | NativeFlush(visits: nat, drained: bool, events: nat)

  function Around(lock: Lock, body: Program): Program { [Acquire(lock)] + body + [Release(lock)] }

  /** Touch a thing under a lock, on the branches that do. */
  function Use(lock: Lock, x: Thing, taken: bool): Program { if taken then Around(lock, [Touch(x)]) else [] }

  function Repeat(lock: Lock, x: Thing, n: nat): Program {
    if n == 0 then [] else Use(lock, x, true) + Repeat(lock, x, n - 1)
  }

  /** Every lock from `lo` up to `hi` taken in ascending order, released in descending order. */
  function AllOf(lo: Lock, hi: Lock, x: Thing): Program
    decreases hi - lo
  {
    if lo >= hi then [Touch(x)] else Around(lo, AllOf(lo + 1, hi, x))
  }

  function Trace(c: Call): Program {
    match c
    case SpawnFresh(id, published, recorded) =>
      Around(CONTROL, [Touch(Bindings)] + Around(Stripe(id), [Touch(Row(id))] + Use(BOOK, Book, published)))
      + Use(RECORDER, Recorder, recorded)
    case SpawnKnown(id) => Around(CONTROL, [Touch(Bindings)] + [Touch(Row(id))])
    case Move(id, published, gateDropped, recorded) =>
      Around(Stripe(id), [Touch(Row(id))] + (Use(BOOK, Book, published) + Use(BOOK, Book, gateDropped)))
      + Use(RECORDER, Recorder, recorded)
    case Teleport(id, published) => Around(Stripe(id), [Touch(Row(id))] + Use(BOOK, Book, published))
    case ActorState(id) => Use(Stripe(id), Row(id), true)
    case ActorStates => Around(CONTROL, AllOf(1, 1 + STRIPES, AllRows))
    case BindingStats => Around(CONTROL, [Touch(Bindings)] + Use(BOOK, Book, true))
    case Bind => Use(CONTROL, Bindings, true)
    case Chat(id, known) => Use(Stripe(id), Row(id), true) + Use(BOOK, Book, known)
    case Flush(cells) => Use(BOOK, Book, true) + Repeat(BOOK, Book, cells)
    case NativeSpawnFresh(id, published, recorded) =>
      Around(CONTROL, [Touch(Bindings)] + Around(NATIVE_CONTROL,
        Around(NativeStripe(id), [Touch(NativeRow(id))] + Use(NATIVE_BOOK, NativeBook, published))))
      + Use(RECORDER, Recorder, recorded)
    case NativeSpawnKnown(id) => Around(CONTROL, [Touch(Bindings)] + Use(NativeStripe(id), NativeRow(id), true))
    case NativeMove(id, published, recorded) =>
      Around(NativeStripe(id), [Touch(NativeRow(id))] + Use(NATIVE_BOOK, NativeBook, published))
      + Use(RECORD, Ring, recorded)
    case NativeTeleport(id, published) =>
      Use(NativeStripe(id), NativeRow(id), true)
      + Around(NativeStripe(id), [Touch(NativeRow(id))] + Use(NATIVE_BOOK, NativeBook, published))
    case NativeActorState(id) => Use(NativeStripe(id), NativeRow(id), true)
    case NativeActorStates => Around(NATIVE_CONTROL, AllOf(3 + STRIPES, 3 + 2 * STRIPES, AllNativeRows))
    case NativeChat(id, known) =>
      Use(NativeStripe(id), NativeRow(id), true) + Use(NativeStripe(id), NativeRow(id), known)
      + Use(NATIVE_BOOK, NativeBook, known)
    case NativeFlush(visits, drained, events) =>
      Use(NATIVE_BOOK, NativeBook, true) + Repeat(NATIVE_BOOK, NativeBook, visits)
      + Use(RECORD, Ring, drained) + Repeat(RECORDER, Recorder, events)
  }

  /** A worker's calls, one after the other. */
  function Traces(cs: seq<Call>): Program { if cs == [] then [] else Trace(cs[0]) + Traces(cs[1..]) }

  // -------------------------------------------------------------------------------------
  // Ordered programs
  // -------------------------------------------------------------------------------------

  /** Above everything held. */
  predicate Above(held: seq<Lock>, l: Lock) { forall i :: 0 <= i < |held| ==> held[i] < l }

  /** The locks that guard a thing are held. */
  predicate Guards(held: seq<Lock>, x: Thing) {
    match x
    case Row(id) => Stripe(id) in held
    case AllRows => forall l :: 1 <= l < 1 + STRIPES ==> l in held
    case Book => BOOK in held
    case Bindings => CONTROL in held
    case NativeRow(id) => NativeStripe(id) in held
    case AllNativeRows => forall l :: 3 + STRIPES <= l < 3 + 2 * STRIPES ==> l in held
    case NativeBook => NATIVE_BOOK in held
    case Ring => RECORD in held
    case Recorder => RECORDER in held
  }

  /** With `held` taken in this order, the rest of the program only takes locks above those it holds,
      releases the last one taken, and ends holding what it held before, `base`. When `strict`, it also
      touches things only under their locks. */
  predicate Ordered(strict: bool, held: seq<Lock>, p: Program, base: seq<Lock>)
    decreases |p|
  {
    if p == [] then held == base
    else
      match p[0]
      case Acquire(l) => Above(held, l) && Ordered(strict, held + [l], p[1..], base)
      case Release(l) => held != [] && held[|held| - 1] == l && Ordered(strict, held[..|held| - 1], p[1..], base)
      case Touch(x) => (strict ==> Guards(held, x)) && Ordered(strict, held, p[1..], base)
  }

  /** The program keeps whatever is held. */
  predicate Keeps(strict: bool, held: seq<Lock>, p: Program) { Ordered(strict, held, p, held) }

  lemma {:induction false} OrderedAppend(strict: bool, held: seq<Lock>, p: Program, mid: seq<Lock>, q: Program,
                                         base: seq<Lock>)
    requires Ordered(strict, held, p, mid) && Ordered(strict, mid, q, base)
    ensures Ordered(strict, held, p + q, base)
    decreases |p|
  {
    if p == [] {
      assert p + q == q;
    } else {
      assert (p + q)[1..] == p[1..] + q;
      match p[0]
      case Acquire(l) => OrderedAppend(strict, held + [l], p[1..], mid, q, base);
      case Release(l) => OrderedAppend(strict, held[..|held| - 1], p[1..], mid, q, base);
      case Touch(_) => OrderedAppend(strict, held, p[1..], mid, q, base);
    }
  }

  lemma Then(strict: bool, held: seq<Lock>, p: Program, q: Program)
    requires Keeps(strict, held, p) && Keeps(strict, held, q)
    ensures Keeps(strict, held, p + q)
  {
    OrderedAppend(strict, held, p, held, q, held);
  }

  lemma KeepsAround(strict: bool, held: seq<Lock>, l: Lock, body: Program)
    requires Above(held, l) && Keeps(strict, held + [l], body)
    ensures Keeps(strict, held, Around(l, body))
  {
    var last := [Release(l)];
    assert last[1..] == [] && (held + [l])[..|held|] == held;
    assert Ordered(strict, held + [l], last, held);
    OrderedAppend(strict, held + [l], body, held + [l], last, held);
    assert Around(l, body)[1..] == body + last;
  }

  lemma KeepsTouch(strict: bool, held: seq<Lock>, x: Thing)
    requires strict ==> Guards(held, x)
    ensures Keeps(strict, held, [Touch(x)])
  {
    assert [Touch(x)][1..] == [];
  }

  lemma KeepsUse(strict: bool, held: seq<Lock>, l: Lock, x: Thing, taken: bool)
    requires Above(held, l) && (strict ==> Guards(held + [l], x))
    ensures Keeps(strict, held, Use(l, x, taken))
  {
    if taken {
      KeepsTouch(strict, held + [l], x);
      KeepsAround(strict, held, l, [Touch(x)]);
    }
  }

  lemma {:induction false} KeepsRepeat(strict: bool, held: seq<Lock>, l: Lock, x: Thing, n: nat)
    requires Above(held, l) && (strict ==> Guards(held + [l], x))
    ensures Keeps(strict, held, Repeat(l, x, n))
  {
    hide Guards;
    if n > 0 {
      KeepsUse(strict, held, l, x, true);
      KeepsRepeat(strict, held, l, x, n - 1);
      Then(strict, held, Use(l, x, true), Repeat(l, x, n - 1));
    }
  }

  lemma {:induction false} KeepsAllOf(strict: bool, held: seq<Lock>, lo: Lock, hi: Lock, x: Thing)
    requires Above(held, lo) && lo <= hi
    requires forall all: seq<Lock> :: (forall l :: l in held || lo <= l < hi ==> l in all) ==> Guards(all, x)
    ensures Keeps(strict, held, AllOf(lo, hi, x))
    decreases hi - lo
  {
    hide Guards;
    if lo < hi {
      KeepsAllOf(strict, held + [lo], lo + 1, hi, x);
      KeepsAround(strict, held, lo, AllOf(lo + 1, hi, x));
    } else {
      KeepsTouch(strict, held, x);
    }
  }

  /** A body that touches one thing and then uses another. */
  lemma KeepsTouchThen(strict: bool, held: seq<Lock>, x: Thing, p: Program)
    requires (strict ==> Guards(held, x)) && Keeps(strict, held, p)
    ensures Keeps(strict, held, [Touch(x)] + p)
  {
    KeepsTouch(strict, held, x);
    Then(strict, held, [Touch(x)], p);
  }

  /** A stripe around its actor and the bookkeeping. */
  lemma KeepsStripe(strict: bool, held: seq<Lock>, l: Lock, x: Thing, book: Lock, y: Thing, taken: bool)
    requires Above(held, l) && l < book
    requires strict ==> Guards(held + [l], x) && Guards(held + [l] + [book], y)
    ensures Keeps(strict, held, Around(l, [Touch(x)] + Use(book, y, taken)))
  {
    hide Guards;
    KeepsUse(strict, held + [l], book, y, taken);
    KeepsTouchThen(strict, held + [l], x, Use(book, y, taken));
    KeepsAround(strict, held, l, [Touch(x)] + Use(book, y, taken));
  }

  // -------------------------------------------------------------------------------------
  // Every call
  // -------------------------------------------------------------------------------------

  lemma SpawnOrdered(strict: bool, id: int, published: bool, recorded: bool)
    ensures Keeps(strict, [], Trace(SpawnFresh(id, published, recorded)))
  {
    hide Keeps, Around, Use;
    var stripe := Around(Stripe(id), [Touch(Row(id))] + Use(BOOK, Book, published));
    KeepsStripe(strict, [CONTROL], Stripe(id), Row(id), BOOK, Book, published);
    KeepsTouchThen(strict, [CONTROL], Bindings, stripe);
    assert [] + [CONTROL] == [CONTROL];
    KeepsAround(strict, [], CONTROL, [Touch(Bindings)] + stripe);
    KeepsUse(strict, [], RECORDER, Recorder, recorded);
    Then(strict, [], Around(CONTROL, [Touch(Bindings)] + stripe), Use(RECORDER, Recorder, recorded));
  }

  lemma KnownOrdered(id: int)
    ensures Keeps(false, [], Trace(SpawnKnown(id)))
  {
    hide Keeps, Around;
    KeepsTouch(false, [CONTROL], Row(id));
    KeepsTouchThen(false, [CONTROL], Bindings, [Touch(Row(id))]);
    assert [] + [CONTROL] == [CONTROL];
    KeepsAround(false, [], CONTROL, [Touch(Bindings)] + [Touch(Row(id))]);
  }

  lemma MoveOrdered(strict: bool, id: int, published: bool, gateDropped: bool, recorded: bool)
    ensures Keeps(strict, [], Trace(Move(id, published, gateDropped, recorded)))
  {
    hide Keeps, Around, Use;
    var books := Use(BOOK, Book, published) + Use(BOOK, Book, gateDropped);
    assert [] + [Stripe(id)] == [Stripe(id)];
    KeepsUse(strict, [Stripe(id)], BOOK, Book, published);
    KeepsUse(strict, [Stripe(id)], BOOK, Book, gateDropped);
    Then(strict, [Stripe(id)], Use(BOOK, Book, published), Use(BOOK, Book, gateDropped));
    KeepsTouchThen(strict, [Stripe(id)], Row(id), books);
    KeepsAround(strict, [], Stripe(id), [Touch(Row(id))] + books);
    KeepsUse(strict, [], RECORDER, Recorder, recorded);
    Then(strict, [], Around(Stripe(id), [Touch(Row(id))] + books), Use(RECORDER, Recorder, recorded));
  }

  lemma StatsOrdered(strict: bool)
    ensures Keeps(strict, [], Trace(BindingStats))
  {
    hide Keeps, Around, Use;
    assert [] + [CONTROL] == [CONTROL];
    KeepsUse(strict, [CONTROL], BOOK, Book, true);
    KeepsTouchThen(strict, [CONTROL], Bindings, Use(BOOK, Book, true));
    KeepsAround(strict, [], CONTROL, [Touch(Bindings)] + Use(BOOK, Book, true));
  }

  lemma StatesOrdered(strict: bool, control: Lock, lo: Lock, hi: Lock, x: Thing)
    requires control < lo <= hi
    requires forall all: seq<Lock> :: (forall l :: lo <= l < hi ==> l in all) ==> Guards(all, x)
    ensures Keeps(strict, [], Around(control, AllOf(lo, hi, x)))
  {
    hide Keeps, Around, AllOf, Guards;
    assert [] + [control] == [control];
    KeepsAllOf(strict, [control], lo, hi, x);
    KeepsAround(strict, [], control, AllOf(lo, hi, x));
  }

  predicate Python(c: Call) {
    c.SpawnFresh? || c.SpawnKnown? || c.Move? || c.Teleport? || c.ActorState? || c.ActorStates?
    || c.BindingStats? || c.Bind? || c.Chat? || c.Flush?
  }

  lemma PythonOrdered(strict: bool, c: Call)
    requires Python(c) && (strict ==> !c.SpawnKnown?)
    ensures Keeps(strict, [], Trace(c))
  {
    hide Keeps, Around, Use, Repeat, AllOf;
    match c
    case SpawnFresh(id, published, recorded) => SpawnOrdered(strict, id, published, recorded);
    case SpawnKnown(id) => KnownOrdered(id);
    case Move(id, published, gateDropped, recorded) => MoveOrdered(strict, id, published, gateDropped, recorded);
    case Teleport(id, published) => KeepsStripe(strict, [], Stripe(id), Row(id), BOOK, Book, published);
    case ActorState(id) => KeepsUse(strict, [], Stripe(id), Row(id), true);
    case ActorStates => StatesOrdered(strict, CONTROL, 1, 1 + STRIPES, AllRows);
    case BindingStats => StatsOrdered(strict);
    case Bind => KeepsUse(strict, [], CONTROL, Bindings, true);
    case Chat(id, known) =>
      KeepsUse(strict, [], Stripe(id), Row(id), true);
      KeepsUse(strict, [], BOOK, Book, known);
      Then(strict, [], Use(Stripe(id), Row(id), true), Use(BOOK, Book, known));
    case Flush(cells) =>
      KeepsUse(strict, [], BOOK, Book, true);
      KeepsRepeat(strict, [], BOOK, Book, cells);
      Then(strict, [], Use(BOOK, Book, true), Repeat(BOOK, Book, cells));
  }

  lemma NativeSpawnOrdered(strict: bool, id: int, published: bool, recorded: bool)
    ensures Keeps(strict, [], Trace(NativeSpawnFresh(id, published, recorded)))
  {
    hide Keeps, Around, Use;
    var stripe := Around(NativeStripe(id), [Touch(NativeRow(id))] + Use(NATIVE_BOOK, NativeBook, published));
    var inner := Around(NATIVE_CONTROL, stripe);
    assert [] + [CONTROL] == [CONTROL];
    KeepsStripe(strict, [CONTROL] + [NATIVE_CONTROL], NativeStripe(id), NativeRow(id), NATIVE_BOOK, NativeBook,
                published);
    KeepsAround(strict, [CONTROL], NATIVE_CONTROL, stripe);
    KeepsTouchThen(strict, [CONTROL], Bindings, inner);
    KeepsAround(strict, [], CONTROL, [Touch(Bindings)] + inner);
    KeepsUse(strict, [], RECORDER, Recorder, recorded);
    Then(strict, [], Around(CONTROL, [Touch(Bindings)] + inner), Use(RECORDER, Recorder, recorded));
  }

  lemma NativeKnownOrdered(strict: bool, id: int)
    ensures Keeps(strict, [], Trace(NativeSpawnKnown(id)))
  {
    hide Keeps, Around, Use;
    assert [] + [CONTROL] == [CONTROL];
    KeepsUse(strict, [CONTROL], NativeStripe(id), NativeRow(id), true);
    KeepsTouchThen(strict, [CONTROL], Bindings, Use(NativeStripe(id), NativeRow(id), true));
    KeepsAround(strict, [], CONTROL, [Touch(Bindings)] + Use(NativeStripe(id), NativeRow(id), true));
  }

  lemma NativeFlushOrdered(strict: bool, visits: nat, drained: bool, events: nat)
    ensures Keeps(strict, [], Trace(NativeFlush(visits, drained, events)))
  {
    hide Keeps, Around, Use, Repeat;
    var a, b := Use(NATIVE_BOOK, NativeBook, true), Repeat(NATIVE_BOOK, NativeBook, visits);
    var c, d := Use(RECORD, Ring, drained), Repeat(RECORDER, Recorder, events);
    KeepsUse(strict, [], NATIVE_BOOK, NativeBook, true);
    KeepsRepeat(strict, [], NATIVE_BOOK, NativeBook, visits);
    KeepsUse(strict, [], RECORD, Ring, drained);
    KeepsRepeat(strict, [], RECORDER, Recorder, events);
    Then(strict, [], a, b);
    Then(strict, [], a + b, c);
    Then(strict, [], a + b + c, d);
  }

  lemma NativeOrdered(strict: bool, c: Call)
    requires !Python(c)
    ensures Keeps(strict, [], Trace(c))
  {
    hide Keeps, Around, Use, Repeat, AllOf;
    match c
    case NativeSpawnFresh(id, published, recorded) => NativeSpawnOrdered(strict, id, published, recorded);
    case NativeSpawnKnown(id) => NativeKnownOrdered(strict, id);
    case NativeMove(id, published, recorded) =>
      KeepsStripe(strict, [], NativeStripe(id), NativeRow(id), NATIVE_BOOK, NativeBook, published);
      KeepsUse(strict, [], RECORD, Ring, recorded);
      Then(strict, [], Around(NativeStripe(id), [Touch(NativeRow(id))] + Use(NATIVE_BOOK, NativeBook, published)),
           Use(RECORD, Ring, recorded));
    case NativeTeleport(id, published) =>
      KeepsUse(strict, [], NativeStripe(id), NativeRow(id), true);
      KeepsStripe(strict, [], NativeStripe(id), NativeRow(id), NATIVE_BOOK, NativeBook, published);
      Then(strict, [], Use(NativeStripe(id), NativeRow(id), true),
           Around(NativeStripe(id), [Touch(NativeRow(id))] + Use(NATIVE_BOOK, NativeBook, published)));
    case NativeActorState(id) => KeepsUse(strict, [], NativeStripe(id), NativeRow(id), true);
    case NativeActorStates => StatesOrdered(strict, NATIVE_CONTROL, 3 + STRIPES, 3 + 2 * STRIPES, AllNativeRows);
    case NativeChat(id, known) =>
      KeepsUse(strict, [], NativeStripe(id), NativeRow(id), true);
      KeepsUse(strict, [], NativeStripe(id), NativeRow(id), known);
      KeepsUse(strict, [], NATIVE_BOOK, NativeBook, known);
      Then(strict, [], Use(NativeStripe(id), NativeRow(id), true), Use(NativeStripe(id), NativeRow(id), known));
      Then(strict, [], Use(NativeStripe(id), NativeRow(id), true) + Use(NativeStripe(id), NativeRow(id), known),
           Use(NATIVE_BOOK, NativeBook, known));
    case NativeFlush(visits, drained, events) => NativeFlushOrdered(strict, visits, drained, events);
  }

  /** Every sequence of calls on every branch takes locks only upwards in the documented order,
      control, stripes by ascending index, bookkeeping, and holds none between calls; and, unless it spawns
      a known principal in Python, it touches every actor under the actor's stripe and all bookkeeping under
      the bookkeeping lock. */
  lemma {:induction false} CallsOrdered(strict: bool, cs: seq<Call>)
    requires strict ==> forall c :: c in cs ==> !c.SpawnKnown?
    ensures Ordered(strict, [], Traces(cs), [])
  {
    hide Trace;
    if cs != [] {
      assert cs[0] in cs;
      if Python(cs[0]) { PythonOrdered(strict, cs[0]); } else { NativeOrdered(strict, cs[0]); }
      CallsOrdered(strict, cs[1..]);
      Then(strict, [], Trace(cs[0]), Traces(cs[1..]));
    }
  }

  // -------------------------------------------------------------------------------------
  // What every call touches
  // -------------------------------------------------------------------------------------

  /** The things a program touches, in order. */
  function Touched(p: Program): seq<Thing> {
    if p == [] then [] else (if p[0].Touch? then [p[0].thing] else []) + Touched(p[1..])
  }

  lemma {:induction false} TouchedAppend(p: Program, q: Program)
    ensures Touched(p + q) == Touched(p) + Touched(q)
    decreases |p|
  {
    if p == [] {
      assert p + q == q;
    } else {
      var first := if p[0].Touch? then [p[0].thing] else [];
      assert (p + q)[0] == p[0] && (p + q)[1..] == p[1..] + q;
      TouchedAppend(p[1..], q);
      assert Touched(p) == first + Touched(p[1..]) && Touched(p + q) == first + Touched(p[1..] + q);
      Prelude.Assoc(first, Touched(p[1..]), Touched(q));
    }
  }

  lemma TouchedAround(l: Lock, p: Program)
    ensures Touched(Around(l, p)) == Touched(p)
  {
    assert [Acquire(l)][1..] == [] && [Release(l)][1..] == [];
    TouchedAppend([Acquire(l)], p);
    TouchedAppend([Acquire(l)] + p, [Release(l)]);
  }

  lemma TouchedUse(l: Lock, x: Thing, taken: bool)
    ensures Touched(Use(l, x, taken)) == if taken then [x] else []
  {
    assert [Touch(x)][1..] == [];
    if taken { TouchedAround(l, [Touch(x)]); }
  }

  lemma TouchedThen(x: Thing, p: Program)
    ensures Touched([Touch(x)] + p) == [x] + Touched(p)
  {
    assert ([Touch(x)] + p)[1..] == p;
  }

  /** A movement reads and stores its actor, marks its cells when it published, counts a drop at the gate,
      and hands its record on when it is recorded. */
  lemma MoveTouches(id: int, published: bool, gateDropped: bool, recorded: bool)
    ensures Touched(Trace(Move(id, published, gateDropped, recorded)))
            == [Row(id)] + ((if published then [Book] else []) + (if gateDropped then [Book] else []))
               + (if recorded then [Recorder] else [])
    ensures Touched(Trace(NativeMove(id, published, recorded)))
            == [NativeRow(id)] + (if published then [NativeBook] else []) + (if recorded then [Ring] else [])
  {
    hide Around, Use, Touched;
    var books := Use(BOOK, Book, published) + Use(BOOK, Book, gateDropped);
    TouchedUse(BOOK, Book, published);
    TouchedUse(BOOK, Book, gateDropped);
    TouchedAppend(Use(BOOK, Book, published), Use(BOOK, Book, gateDropped));
    TouchedThen(Row(id), books);
    TouchedAround(Stripe(id), [Touch(Row(id))] + books);
    TouchedUse(RECORDER, Recorder, recorded);
    TouchedAppend(Around(Stripe(id), [Touch(Row(id))] + books), Use(RECORDER, Recorder, recorded));
    var book := Use(NATIVE_BOOK, NativeBook, published);
    TouchedUse(NATIVE_BOOK, NativeBook, published);
    TouchedThen(NativeRow(id), book);
    TouchedAround(NativeStripe(id), [Touch(NativeRow(id))] + book);
    TouchedUse(RECORD, Ring, recorded);
    TouchedAppend(Around(NativeStripe(id), [Touch(NativeRow(id))] + book), Use(RECORD, Ring, recorded));
  }

  /** A spawn and a teleport touch their actor and the bookkeeping. */
  lemma StoresTouch(id: int, published: bool, recorded: bool)
    ensures Touched(Trace(SpawnFresh(id, published, recorded)))
            == [Bindings] + ([Row(id)] + if published then [Book] else []) + if recorded then [Recorder] else []
    ensures Touched(Trace(Teleport(id, published))) == [Row(id)] + if published then [Book] else []
    ensures Touched(Trace(SpawnKnown(id))) == [Bindings] + [Row(id)]
  {
    hide Around, Use, Touched;
    var body := [Touch(Row(id))] + Use(BOOK, Book, published);
    var stripe := Around(Stripe(id), body);
    TouchedUse(BOOK, Book, published);
    TouchedThen(Row(id), Use(BOOK, Book, published));
    TouchedAround(Stripe(id), body);
    TouchedThen(Bindings, stripe);
    TouchedAround(CONTROL, [Touch(Bindings)] + stripe);
    TouchedUse(RECORDER, Recorder, recorded);
    TouchedAppend(Around(CONTROL, [Touch(Bindings)] + stripe), Use(RECORDER, Recorder, recorded));
    TouchedOne(Row(id));
    TouchedThen(Bindings, [Touch(Row(id))]);
    TouchedAround(CONTROL, [Touch(Bindings)] + [Touch(Row(id))]);
  }

  lemma TouchedOne(x: Thing)
    ensures Touched([Touch(x)]) == [x]
  {
    assert [Touch(x)][1..] == [];
  }

  /** A flush touches the bookkeeping once for the snapshot and once for every cell. */
  lemma FlushTouches(cells: nat)
    ensures |Touched(Trace(Flush(cells)))| == 1 + cells && forall x :: x in Touched(Trace(Flush(cells))) ==> x == Book
  {
    hide Use;
    TouchedUse(BOOK, Book, true);
    RepeatTouches(BOOK, Book, cells);
    TouchedAppend(Use(BOOK, Book, true), Repeat(BOOK, Book, cells));
  }

  lemma {:induction false} RepeatTouches(l: Lock, x: Thing, n: nat)
    ensures |Touched(Repeat(l, x, n))| == n && forall y :: y in Touched(Repeat(l, x, n)) ==> y == x
  {
    hide Use;
    if n > 0 {
      TouchedUse(l, x, true);
      RepeatTouches(l, x, n - 1);
      TouchedAppend(Use(l, x, true), Repeat(l, x, n - 1));
    }
  }

  /** Spawning a known principal in Python is the one call that touches an actor without its stripe. */
  lemma UnguardedExactly(c: Call)
    ensures Ordered(true, [], Trace(c), []) <==> !c.SpawnKnown?
  {
    hide Trace;
    if c.SpawnKnown? {
      KnownUnguarded(c.id);
    } else if Python(c) {
      PythonOrdered(true, c);
    } else {
      NativeOrdered(true, c);
    }
  }

  lemma KnownUnguarded(id: int)
    ensures !Ordered(true, [], Trace(SpawnKnown(id)), [])
  {
    var p := Trace(SpawnKnown(id));
    assert p == [Acquire(CONTROL), Touch(Bindings), Touch(Row(id)), Release(CONTROL)];
    assert [] + [CONTROL] == [CONTROL];
    var p1, p2 := p[1..], p[1..][1..];
    assert p1[0] == Touch(Bindings) && p2[0] == Touch(Row(id)) && !Guards([CONTROL], Row(id));
    assert !Ordered(true, [CONTROL], p2, []);
    assert !Ordered(true, [CONTROL], p1, []);
  }
}
