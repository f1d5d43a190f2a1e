/** The interrupt queue of elua_int.c: interrupt service routines add to it at any moment, a
    hook of the virtual machine takes from it in single steps. */
module IntQueue {

  const ELUA_INT_EMPTY_SLOT: nat := 0
  const ELUA_INT_FIRST_ID: nat := 1
  const LUA_INT_MAX_SOURCES: nat := 128
  const QUEUE_SIZE: nat := 32  // 1 << PLATFORM_INT_QUEUE_LOG_SIZE

  datatype Element = Element(id: nat, resnum: nat)

  datatype Status = PLATFORM_OK | PLATFORM_ERR

  // Where the hook stands: it has copied the element at the read index, emptied its slot,
  // advanced the read index, called the handler.
  datatype HookPc = Idle | Copied(crt: Element) | Emptied(crt: Element) | Advanced(crt: Element) | Handled

  type Index = i: nat | i < QUEUE_SIZE

  // (i + 1) & INT_IDX_MASK
  function NextIdx(i: Index): Index { if i + 1 == QUEUE_SIZE then 0 else i + 1 }

  // The k-th slot from slot i on.
  function SlotAt(i: Index, k: nat): Index
    requires k <= QUEUE_SIZE
  {
    if i + k < QUEUE_SIZE then i + k else i + k - QUEUE_SIZE
  }

  type Queue = q: seq<Element> | |q| == QUEUE_SIZE witness seq(QUEUE_SIZE, _ => Element(0, 0))

  // The queue holds `pending' from slot `first' on and nothing else.
  ghost predicate Holds(q: Queue, first: Index, pending: seq<Element>) {
    && |pending| <= QUEUE_SIZE
    && forall k :: 0 <= k < QUEUE_SIZE ==> SlotHolds(q, first, pending, k)
  }

  ghost predicate SlotHolds(q: Queue, first: Index, pending: seq<Element>, k: nat)
    requires k < QUEUE_SIZE
  {
    if k < |pending| then q[SlotAt(first, k)] == pending[k] && pending[k].id != ELUA_INT_EMPTY_SLOT
    else q[SlotAt(first, k)].id == ELUA_INT_EMPTY_SLOT
  }

  type Flags = f: seq<bv32> | |f| == 4 witness [0, 0, 0, 0]

  datatype Event =
    | Interrupt(id: nat, resnum: nat)  // elua_int_add, from a service routine
    | HookStep                         // the next step of the hook, if it runs or may start
    | HandlerFails                     // the Lua handler, if it is running, raises an error
    | Enable(id: nat)
    | Disable(id: nat)

  // ---------- the transitions ----------

  // All that the service routines and the hook share, and where the hook stands.
  datatype Machine = Machine(queue: Queue, read: Index, write: Index, flags: Flags, hooked: bool,
                             running: bool, pc: HookPc, last: nat)

  predicate Enabled(f: Flags, id: nat) { id < LUA_INT_MAX_SOURCES && FlagOf(f, id) }

  function Raised(f: Flags, id: nat): Flags {
    if id < LUA_INT_MAX_SOURCES then f[id / 32 := f[id / 32] | Mask(id % 32)] else f
  }

  function Lowered(f: Flags, id: nat): Flags {
    if id < LUA_INT_MAX_SOURCES then f[id / 32 := f[id / 32] & !Mask(id % 32)] else f
  }

  predicate Accepts(m: Machine, id: nat) {
    && ELUA_INT_FIRST_ID <= id <= m.last && m.running && Enabled(m.flags, id)
    && m.queue[m.write].id == ELUA_INT_EMPTY_SLOT
  }

  function Added(m: Machine, e: Element): Machine {
    m.(queue := m.queue[m.write := e], write := NextIdx(m.write), hooked := true)
  }

  function HookNext(m: Machine): Machine {
    match m.pc
    case Idle => if m.hooked then m.(pc := Copied(m.queue[m.read])) else m
    case Copied(crt) =>
      m.(queue := m.queue[m.read := m.queue[m.read].(id := ELUA_INT_EMPTY_SLOT)], pc := Emptied(crt))
    case Emptied(crt) => m.(read := NextIdx(m.read), pc := Advanced(crt))
    case Advanced(_) => m.(pc := Handled)
    case Handled => m.(hooked := m.hooked && m.queue[m.read].id != ELUA_INT_EMPTY_SLOT, pc := Idle)
  }

  // The handler is called only if its interrupt is still enabled; an error in it leaves the
  // hook function before its last step.
  predicate InHandler(m: Machine) { m.pc.Advanced? && Enabled(m.flags, m.pc.crt.id) }

  function Next(m: Machine, e: Event): Machine {
    match e
    case Interrupt(id, resnum) => if Accepts(m, id) then Added(m, Element(id, resnum)) else m
    case HookStep => HookNext(m)
    case HandlerFails => if InHandler(m) then m.(pc := Idle) else m
    case Enable(id) => m.(flags := Raised(m.flags, id))
    case Disable(id) => m.(flags := Lowered(m.flags, id))
  }

  function After(m: Machine, events: seq<Event>): Machine
    decreases |events|
  {
    if events == [] then m else After(Next(m, events[0]), events[1..])
  }

  // ---------- the invariant ----------

  function First(m: Machine): Index { if m.pc.Emptied? then NextIdx(m.read) else m.read }

  /** The queue holds `pending', the write index is its end, and the hook is set while anything
      is pending and whenever it is at work. */
  ghost predicate Inv(m: Machine, pending: seq<Element>) {
    && Holds(m.queue, First(m), pending) && m.write == SlotAt(First(m), |pending|)
    && (pending != [] || m.pc != Idle ==> m.hooked)
    && (m.pc == Idle && pending == [] ==> !m.hooked)
    && (m.pc.Copied? ==> pending != [] && m.pc.crt == pending[0])
  }

  // What is pending after an event.
  function PendingAfter(m: Machine, pending: seq<Element>, e: Event): seq<Element> {
    if e.Interrupt? && Accepts(m, e.id) then pending + [Element(e.id, e.resnum)]
    else if e.HookStep? && m.pc.Copied? && pending != [] then pending[1..]
    else pending
  }

  // An error in the handler comes while something is still queued.
  predicate Harmless(m: Machine, e: Event) {
    e.HandlerFails? && InHandler(m) ==> m.queue[m.read].id != ELUA_INT_EMPTY_SLOT
  }

  lemma QueuedIsPending(m: Machine, pending: seq<Element>)
    requires Inv(m, pending)
    ensures m.queue[First(m)].id != ELUA_INT_EMPTY_SLOT <==> pending != []
    ensures pending != [] ==> m.queue[First(m)] == pending[0]
    ensures m.queue[m.write].id == ELUA_INT_EMPTY_SLOT <==> |pending| < QUEUE_SIZE
  {
    assert SlotHolds(m.queue, First(m), pending, 0);
    EndSlot(m.queue, First(m), pending);
  }

  /** Every event keeps the invariant: an add never overwrites an occupied slot, not even
      between the emptying of a slot and the advance of the read index. */
  lemma NextKeeps(m: Machine, pending: seq<Element>, e: Event)
    requires Inv(m, pending) && Harmless(m, e)
    ensures Inv(Next(m, e), PendingAfter(m, pending, e))
  {
    QueuedIsPending(m, pending);
    match e {
      case Interrupt(id, resnum) =>
        if Accepts(m, id) {
          AddHolds(m.queue, First(m), pending, Element(id, resnum));
        }
      case HookStep =>
        if m.pc.Copied? {
          TakeHolds(m.queue, m.read, pending);
        }
      case HandlerFails =>
      case Enable(_) =>
      case Disable(_) =>
    }
  }

  // Every error in a handler on the way comes while something is still queued.
  predicate AllHarmless(m: Machine, events: seq<Event>)
    decreases |events|
  {
    events == [] || (Harmless(m, events[0]) && AllHarmless(Next(m, events[0]), events[1..]))
  }

  /** The invariant over whole runs. */
  lemma {:induction false} RunKeeps(m: Machine, pending: seq<Element>, events: seq<Event>)
    returns (rest: seq<Element>)
    requires Inv(m, pending) && AllHarmless(m, events)
    ensures Inv(After(m, events), rest)
    decreases |events|
  {
    rest := pending;
    if events != [] {
      NextKeeps(m, pending, events[0]);
      rest := RunKeeps(Next(m, events[0]), PendingAfter(m, pending, events[0]), events[1..]);
    }
  }

  lemma {:induction false} AfterSnoc(m: Machine, events: seq<Event>, e: Event)
    ensures After(m, events + [e]) == Next(After(m, events), e)
    ensures AllHarmless(m, events + [e]) <==> AllHarmless(m, events) && Harmless(After(m, events), e)
    decreases |events|
  {
    if events == [] {
      assert events + [e] == [e] && [e][1..] == [];
    } else {
      assert (events + [e])[1..] == events[1..] + [e];
      AfterSnoc(Next(m, events[0]), events[1..], e);
    }
  }

  // ---------- a handler that raises an error ----------

  // Something is queued and nothing will ever take it: the hook is neither at work nor set.
  ghost predicate Stuck(m: Machine) {
    m.pc == Idle && !m.hooked && exists k: Index :: m.queue[k].id != ELUA_INT_EMPTY_SLOT
  }

  predicate NoFailures(events: seq<Event>) { HandlerFails !in events }

  lemma NeverStuck(m: Machine, pending: seq<Element>)
    requires Inv(m, pending)
    ensures !Stuck(m)
  {
    forall k: Index | pending == [] ensures m.queue[k].id == ELUA_INT_EMPTY_SLOT {
      var first := First(m);
      var j := if first <= k then k - first else k - first + QUEUE_SIZE;
      assert SlotHolds(m.queue, first, pending, j) && SlotAt(first, j) == k;
    }
  }

  lemma {:induction false} NoFailuresHarmless(m: Machine, events: seq<Event>)
    requires NoFailures(events)
    ensures AllHarmless(m, events)
    decreases |events|
  {
    if events != [] {
      assert events[0] in events && forall e :: e in events[1..] ==> e in events;
      NoFailuresHarmless(Next(m, events[0]), events[1..]);
    }
  }

  // One round of the hook, from its start to its end.
  const ROUND: seq<Event> := [HookStep, HookStep, HookStep, HookStep, HookStep]

  // The round, an interrupt that is enabled first, and another round.
  const TRAP: seq<Event> := ROUND + [Enable(1), Interrupt(1, 0)] + ROUND

  lemma RoundOnEmptySlot(m: Machine)
    requires m.pc == Idle && m.hooked
    requires m.queue[m.read].id == m.queue[NextIdx(m.read)].id == ELUA_INT_EMPTY_SLOT
    ensures After(m, ROUND) == m.(read := NextIdx(m.read), hooked := false)
  {
    assert m.queue[m.read := m.queue[m.read].(id := ELUA_INT_EMPTY_SLOT)] == m.queue;
    var m1 := HookNext(m);
    var m2 := HookNext(m1);
    var m3 := HookNext(m2);
    var m4 := HookNext(m3);
    AfterRound(m);
  }

  lemma AfterRound(m: Machine)
    ensures After(m, ROUND) == HookNext(HookNext(HookNext(HookNext(HookNext(m)))))
  {
    hide HookNext;
    var h := HookStep;
    assert ROUND == [] + [h] + [h] + [h] + [h] + [h];
    AfterSnoc(m, [], h);
    AfterSnoc(m, [h], h);
    AfterSnoc(m, [h, h], h);
    AfterSnoc(m, [h, h, h], h);
    AfterSnoc(m, [h, h, h, h], h);
    assert [h] + [h] == [h, h] && [h, h] + [h] == [h, h, h] && [h, h, h] + [h] == [h, h, h, h];
    assert [h, h, h, h] + [h] == ROUND && [] + [h] == [h];
  }

  lemma {:induction false} AfterConcat(m: Machine, xs: seq<Event>, ys: seq<Event>)
    ensures After(m, xs + ys) == After(After(m, xs), ys)
    decreases |xs|
  {
    if xs == [] {
      assert xs + ys == ys;
    } else {
      assert (xs + ys)[1..] == xs[1..] + ys;
      AfterConcat(Next(m, xs[0]), xs[1..], ys);
    }
  }

  /** With nothing queued when the handler fails, the hook stays set on an empty queue: its next
      round runs past the write index, and an interrupt that is accepted then stays in the
      queue with the hook cleared. */
  lemma FailureStrands(m: Machine)
    requires m.pc == Idle && m.hooked && m.read == m.write && m.running && 1 <= m.last
    requires forall k: Index :: m.queue[k].id == ELUA_INT_EMPTY_SLOT
    ensures NoFailures(TRAP) && Stuck(After(m, TRAP))
  {
    var m1 := After(m, ROUND);
    RoundOnEmptySlot(m);
    var calls := [Enable(1), Interrupt(1, 0)];
    AfterTwo(m1, calls[0], calls[1]);
    FlagSet(m1.flags, 1, 1);
    var m2 := After(m1, calls);
    assert m2 == Added(m1.(flags := Raised(m1.flags, 1)), Element(1, 0));
    assert m2.queue[m2.read].id == m2.queue[NextIdx(m2.read)].id == ELUA_INT_EMPTY_SLOT;
    RoundOnEmptySlot(m2);
    AfterConcat(m, ROUND, calls);
    AfterConcat(m, ROUND + calls, ROUND);
    assert After(m, TRAP).queue[m.write].id != ELUA_INT_EMPTY_SLOT;
  }

  lemma AfterTwo(m: Machine, e: Event, e': Event)
    ensures After(m, [e, e']) == Next(Next(m, e), e')
  {
    hide Next;
    AfterSnoc(m, [], e);
    AfterSnoc(m, [e], e');
    assert [] + [e] == [e] && [e] + [e'] == [e, e'];
  }

  // The variables as they are initialized, and a Lua state without a hook.
  function Start(last: nat): Machine {
    Machine(seq(QUEUE_SIZE, _ => Element(0, 0)), 0, 0, [0, 0, 0, 0], false, true, Idle, last)
  }

  // One interrupt, and the hook up to the call of its handler.
  const CALL: seq<Event> := [Enable(1), Interrupt(1, 0), HookStep, HookStep, HookStep]

  lemma AfterCall(last: nat)
    requires 1 <= last
    ensures var m := After(Start(last), CALL);
            && Inv(m, []) && InHandler(m) && m.running && 1 <= m.last
            && m.queue[m.read].id == ELUA_INT_EMPTY_SLOT
  {
    var m := Start(last);
    var calls := [Enable(1), Interrupt(1, 0)];
    FlagSet(m.flags, 1, 1);
    AfterTwo(m, calls[0], calls[1]);
    var m1 := After(m, calls);
    var h := HookStep;
    assert CALL == calls + [h] + [h] + [h];
    AfterSnoc(m, calls, h);
    AfterSnoc(m, calls + [h], h);
    AfterSnoc(m, calls + [h] + [h], h);
    assert m1 == Added(m.(flags := Raised(m.flags, 1)), Element(1, 0));
    StartKeeps(last);
    NextKeeps(m, [], calls[0]);
    NextKeeps(Next(m, calls[0]), [], calls[1]);
    var one := [Element(1, 0)];
    assert [] + one == one;
    NextKeeps(m1, one, h);
    NextKeeps(HookNext(m1), one, h);
    assert one[1..] == [];
    NextKeeps(HookNext(HookNext(m1)), [], h);
  }

  lemma StartKeeps(last: nat)
    ensures Inv(Start(last), [])
  {
  }

  /** Such a state is reached: from the start, one interrupt whose handler fails is enough for the
      next interrupt to be stranded. */
  lemma FailureIsReached(last: nat)
    requires 1 <= last
    ensures Stuck(After(Start(last), CALL + [HandlerFails] + TRAP))
  {
    var m := Start(last);
    var m1 := After(m, CALL);
    AfterCall(last);
    AfterSnoc(m, CALL, HandlerFails);
    AfterConcat(m, CALL + [HandlerFails], TRAP);
    forall k: Index ensures m1.queue[k].id == ELUA_INT_EMPTY_SLOT {
      var j := if m1.read <= k then k - m1.read else k - m1.read + QUEUE_SIZE;
      assert SlotHolds(m1.queue, m1.read, [], j) && SlotAt(m1.read, j) == k;
    }
    FailureStrands(Next(m1, HandlerFails));
  }

  /** The exact condition under which an error in a handler does no harm, whatever happens
      afterwards: something else is queued at that moment. */
  lemma FailureIsHarmlessIff(m: Machine, pending: seq<Element>)
    requires Inv(m, pending) && InHandler(m) && m.running && 1 <= m.last
    ensures (forall events :: NoFailures(events) ==> !Stuck(After(Next(m, HandlerFails), events)))
       <==> m.queue[m.read].id != ELUA_INT_EMPTY_SLOT
  {
    var m1 := Next(m, HandlerFails);
    QueuedIsPending(m, pending);
    if pending != [] {
      forall events | NoFailures(events) ensures !Stuck(After(m1, events)) {
        NextKeeps(m, pending, HandlerFails);
        NoFailuresHarmless(m1, events);
        var rest := RunKeeps(m1, pending, events);
        NeverStuck(After(m1, events), rest);
      }
    } else {
      forall k: Index ensures m1.queue[k].id == ELUA_INT_EMPTY_SLOT {
        var j := if m.read <= k then k - m.read else k - m.read + QUEUE_SIZE;
        assert SlotHolds(m.queue, m.read, pending, j) && SlotAt(m.read, j) == k;
      }
      FailureStrands(m1);
    }
  }

  // ---------- the code ----------

  class Interrupts {
    var queue: Queue
    var read_idx: Index
    var write_idx: Index
    var flags: Flags
    var hooked: bool           // lua_sethook( elua_int_hook )
    var running: bool          // there is a Lua state
    var pc: HookPc
    const INT_ELUA_LAST: nat
    ghost var pending: seq<Element>   // accepted and still in the queue
    ghost var taken: seq<Element>     // removed by the hook, in order
    ghost var accepted: seq<Element>

    ghost function M(): Machine
      reads this
    {
      Machine(queue, read_idx, write_idx, flags, hooked, running, pc, INT_ELUA_LAST)
    }

    /** Nothing accepted is lost, doubled or reordered. */
    ghost predicate Valid()
      reads this
    {
      Inv(M(), pending) && accepted == taken + pending
    }

    constructor (last: nat)
      ensures Valid() && accepted == [] && INT_ELUA_LAST == last && M() == Start(last)
    {
      queue := seq(QUEUE_SIZE, _ => Element(0, 0));
      read_idx, write_idx := 0, 0;
      flags := [0, 0, 0, 0];
      hooked, running, pc := false, true, Idle;
      INT_ELUA_LAST := last;
      pending, taken, accepted := [], [], [];
    }

    predicate IsEnabled(id: nat)
      reads this
    {
      Enabled(flags, id)
    }

    /** elua_int_enable: from now on this source, and no other, is enabled as well. */
    method SetFlag(id: nat)
      modifies this`flags
      ensures M() == Next(old(M()), Enable(id)) && (old(Valid()) ==> Valid())
      ensures forall j :: IsEnabled(j) <==> old(IsEnabled(j)) || (j == id && id < LUA_INT_MAX_SOURCES)
    {
      ghost var flags0 := flags;
      if id < LUA_INT_MAX_SOURCES {
        flags := flags[id / 32 := flags[id / 32] | Mask(id % 32)];
      }
      assert flags == Raised(flags0, id);
      hide FlagOf, Raised;
      forall j: nat ensures Enabled(flags, j) <==> Enabled(flags0, j) || (j == id && id < LUA_INT_MAX_SOURCES) {
        RaisedFlag(flags0, id, j);
      }
    }

    /** elua_int_disable */
    method ClearFlag(id: nat)
      modifies this`flags
      ensures M() == Next(old(M()), Disable(id)) && (old(Valid()) ==> Valid())
      ensures forall j :: IsEnabled(j) <==> old(IsEnabled(j)) && j != id
    {
      ghost var flags0 := flags;
      if id < LUA_INT_MAX_SOURCES {
        flags := flags[id / 32 := flags[id / 32] & !Mask(id % 32)];
      }
      assert flags == Lowered(flags0, id);
      hide FlagOf, Lowered;
      forall j: nat ensures Enabled(flags, j) <==> Enabled(flags0, j) && j != id {
        LoweredFlag(flags0, id, j);
      }
    }

    /** elua_int_add: an interrupt is refused only if it is not enabled or the queue is full;
        otherwise it goes to the end of the queue, whatever the hook is doing. */
    method Add(id: nat, resnum: nat) returns (st: Status)
      modifies this`queue, this`write_idx, this`hooked, this`pending, this`accepted
      ensures M() == Next(old(M()), Interrupt(id, resnum))
      ensures old(Valid()) ==>
                && Valid()
                && (st == PLATFORM_OK <==>
                      && ELUA_INT_FIRST_ID <= id <= INT_ELUA_LAST && running && IsEnabled(id)
                      && |old(pending)| < QUEUE_SIZE)
      ensures st == PLATFORM_OK ==> pending == old(pending) + [Element(id, resnum)]
                                    && accepted == old(accepted) + [Element(id, resnum)]
      ensures st == PLATFORM_ERR ==> M() == old(M()) && pending == old(pending) && accepted == old(accepted)
    {
      if Inv(M(), pending) {
        NextKeeps(M(), pending, Interrupt(id, resnum));
        QueuedIsPending(M(), pending);
      }
      hide Inv, FlagOf;
      if id < ELUA_INT_FIRST_ID || id > INT_ELUA_LAST {
        return PLATFORM_ERR;
      }
      if !running || !IsEnabled(id) {
        return PLATFORM_ERR;
      }
      // the slot at the write index is occupied only in a full queue
      if queue[write_idx].id != ELUA_INT_EMPTY_SLOT {
        return PLATFORM_ERR;
      }
      queue := queue[write_idx := Element(id, resnum)];
      write_idx := NextIdx(write_idx);
      pending := pending + [Element(id, resnum)];
      accepted := accepted + [Element(id, resnum)];
      hooked := true;
      return PLATFORM_OK;
    }

    // ---------- the hook, step by step ----------

    method HookCopy()
      requires pc == Idle && hooked
      modifies this`pc
      ensures M() == HookNext(old(M()))
      ensures old(Valid()) ==> Valid() && pending != [] && pc == Copied(pending[0])
    {
      if Inv(M(), pending) {
        NextKeeps(M(), pending, HookStep);
      }
      hide Holds;
      pc := Copied(queue[read_idx]);
    }

    method HookEmpty()
      requires pc.Copied?
      modifies this`queue, this`pc, this`pending, this`taken
      ensures M() == HookNext(old(M()))
      ensures old(Valid()) ==>
                && Valid() && old(pending) != [] && pc == Emptied(old(pending)[0])
                && taken == old(taken) + [old(pending)[0]] && pending == old(pending)[1..]
      ensures !old(Valid()) ==> taken == old(taken)
    {
      if Valid() {
        NextKeeps(M(), pending, HookStep);
        assert pending == [pending[0]] + pending[1..];
        taken, pending := taken + [pending[0]], pending[1..];
      }
      hide Holds;
      queue := queue[read_idx := queue[read_idx].(id := ELUA_INT_EMPTY_SLOT)];
      pc := Emptied(pc.crt);
    }

    method HookAdvance()
      requires pc.Emptied?
      modifies this`read_idx, this`pc
      ensures M() == HookNext(old(M())) && pc == Advanced(old(pc).crt) && (old(Valid()) ==> Valid())
    {
      read_idx := NextIdx(read_idx);
      pc := Advanced(pc.crt);
    }

    // The Lua handler, if the interrupt is still enabled, has run to its end.
    method HookCall() returns (called: bool)
      requires pc.Advanced?
      modifies this`pc
      ensures M() == HookNext(old(M())) && pc == Handled && (old(Valid()) ==> Valid())
      ensures called <==> IsEnabled(old(pc).crt.id)
    {
      called := IsEnabled(pc.crt.id);
      pc := Handled;
    }

    /** With interrupts disabled, the hook is cleared exactly if nothing is pending. */
    method HookFinish()
      requires pc == Handled
      modifies this`hooked, this`pc
      ensures M() == HookNext(old(M())) && pc == Idle
      ensures old(Valid()) ==> Valid() && (hooked <==> pending != [])
    {
      if Inv(M(), pending) {
        NextKeeps(M(), pending, HookStep);
      }
      hide Holds;
      if queue[read_idx].id == ELUA_INT_EMPTY_SLOT {  // the queue is empty
        hooked := false;
      }
      pc := Idle;
    }

    // What the hook does next: the virtual machine starts it only while it is set.
    method Hook()
      modifies this`queue, this`read_idx, this`hooked, this`pc, this`pending, this`taken
      ensures M() == HookNext(old(M())) && old(taken) <= taken
      ensures old(Valid()) ==> Valid()
    {
      hide Inv;
      match pc {
        case Idle =>
          if hooked {
            HookCopy();
          }
        case Copied(_) =>
          HookEmpty();
        case Emptied(_) =>
          HookAdvance();
        case Advanced(_) =>
          var called := HookCall();
        case Handled =>
          HookFinish();
      }
    }

    /** An error in the handler leaves the hook function before its last step. */
    method HandlerError()
      modifies this`pc
      ensures M() == Next(old(M()), HandlerFails)
      ensures old(Valid()) && Harmless(old(M()), HandlerFails) ==> Valid()
    {
      if Inv(M(), pending) && Harmless(M(), HandlerFails) {
        NextKeeps(M(), pending, HandlerFails);
      }
      hide Inv;
      if pc.Advanced? {
        if IsEnabled(pc.crt.id) {
          pc := Idle;
        }
      }
    }

    method Handle(e: Event)
      modifies this
      ensures M() == Next(old(M()), e) && old(accepted) <= accepted && old(taken) <= taken
      ensures old(Valid()) && Harmless(old(M()), e) ==> Valid()
    {
      hide Inv;
      match e {
        case Interrupt(id, resnum) =>
          var st := Add(id, resnum);
        case HookStep =>
          Hook();
        case HandlerFails =>
          HandlerError();
        case Enable(id) =>
          SetFlag(id);
        case Disable(id) =>
          ClearFlag(id);
      }
    }

    /** Every interleaving of interrupts with steps of the hook and errors in handlers: unless a
        handler fails with nothing else queued, the hook takes exactly what was accepted, once
        and in that order, and what it has not taken yet is in the queue with the hook set. */
    method Run(events: seq<Event>)
      modifies this
      ensures M() == After(old(M()), events) && old(accepted) <= accepted && old(taken) <= taken
      ensures old(Valid()) && AllHarmless(old(M()), events) ==>
                Valid() && accepted == taken + pending && (pending != [] ==> hooked)
    {
      ghost var m0, valid := M(), Valid();
      assert events[..0] == [];
      for i := 0 to |events|
        invariant M() == After(m0, events[..i])
        invariant old(accepted) <= accepted && old(taken) <= taken
        invariant valid && AllHarmless(m0, events[..i]) ==> Valid()
      {
        assert events[..i + 1] == events[..i] + [events[i]];
        AfterSnoc(m0, events[..i], events[i]);
        hide Inv, Next;
        Handle(events[i]);
      }
      assert events[..|events|] == events;
    }

    /** Left to itself, the hook empties the queue: each round takes the oldest interrupt. */
    method Drain()
      requires Valid() && pc == Idle
      modifies this`queue, this`read_idx, this`hooked, this`pc, this`pending, this`taken
      ensures Valid() && pending == [] && taken == accepted && !hooked && pc == Idle
    {
      hide Holds;
      while hooked
        invariant Valid() && pc == Idle && accepted == old(accepted)
        decreases |pending|
      {
        HookCopy();
        HookEmpty();
        HookAdvance();
        var called := HookCall();
        HookFinish();
      }
    }
  }

  // ---------- slots ----------

  lemma EndSlot(q: Queue, first: Index, pending: seq<Element>)
    requires Holds(q, first, pending)
    ensures q[SlotAt(first, |pending|)].id == ELUA_INT_EMPTY_SLOT <==> |pending| < QUEUE_SIZE
  {
    assert SlotHolds(q, first, pending, if |pending| < QUEUE_SIZE then |pending| else 0);
  }

  /** An add never overwrites an occupied slot. */
  lemma AddHolds(q: Queue, first: Index, pending: seq<Element>, e: Element)
    requires Holds(q, first, pending) && |pending| < QUEUE_SIZE && e.id != ELUA_INT_EMPTY_SLOT
    ensures Holds(q[SlotAt(first, |pending|) := e], first, pending + [e])
    ensures NextIdx(SlotAt(first, |pending|)) == SlotAt(first, |pending| + 1)
  {
    var q1, p1 := q[SlotAt(first, |pending|) := e], pending + [e];
    forall k | 0 <= k < QUEUE_SIZE ensures SlotHolds(q1, first, p1, k) {
      assert SlotHolds(q, first, pending, k);
    }
  }

  lemma TakeHolds(q: Queue, first: Index, pending: seq<Element>)
    requires Holds(q, first, pending) && pending != []
    ensures Holds(q[first := q[first].(id := ELUA_INT_EMPTY_SLOT)], NextIdx(first), pending[1..])
    ensures SlotAt(NextIdx(first), |pending| - 1) == SlotAt(first, |pending|)
  {
    var q1 := q[first := q[first].(id := ELUA_INT_EMPTY_SLOT)];
    forall k | 0 <= k < QUEUE_SIZE ensures SlotHolds(q1, NextIdx(first), pending[1..], k) {
      assert k + 1 < QUEUE_SIZE ==> SlotHolds(q, first, pending, k + 1);
    }
  }

  // ---------- flag bits ----------

  function Mask(i: nat): bv32
    requires i < 32
  {
    1 << i
  }

  predicate FlagOf(flags: seq<bv32>, id: nat)
    requires |flags| == 4 && id < LUA_INT_MAX_SOURCES
  {
    flags[id / 32] & Mask(id % 32) != 0
  }

  lemma FlagSet(flags: seq<bv32>, id: nat, j: nat)
    requires |flags| == 4 && id < LUA_INT_MAX_SOURCES && j < LUA_INT_MAX_SOURCES
    ensures FlagOf(flags[id / 32 := flags[id / 32] | Mask(id % 32)], j) <==> FlagOf(flags, j) || j == id
  {
    MasksApart(id % 32, j % 32);
    hide Mask;
    BitSet(flags[id / 32], Mask(id % 32), Mask(j % 32));
  }

  lemma FlagCleared(flags: seq<bv32>, id: nat, j: nat)
    requires |flags| == 4 && id < LUA_INT_MAX_SOURCES && j < LUA_INT_MAX_SOURCES
    ensures FlagOf(flags[id / 32 := flags[id / 32] & !Mask(id % 32)], j) <==> FlagOf(flags, j) && j != id
  {
    MasksApart(id % 32, j % 32);
    hide Mask;
    BitClear(flags[id / 32], Mask(id % 32), Mask(j % 32));
  }

  lemma RaisedFlag(f: Flags, id: nat, j: nat)
    ensures Enabled(Raised(f, id), j) <==> Enabled(f, j) || (j == id && id < LUA_INT_MAX_SOURCES)
  {
    if id < LUA_INT_MAX_SOURCES && j < LUA_INT_MAX_SOURCES {
      FlagSet(f, id, j);
      hide FlagOf, Mask;
    }
  }

  lemma LoweredFlag(f: Flags, id: nat, j: nat)
    ensures Enabled(Lowered(f, id), j) <==> Enabled(f, j) && j != id
  {
    if id < LUA_INT_MAX_SOURCES && j < LUA_INT_MAX_SOURCES {
      FlagCleared(f, id, j);
      hide FlagOf, Mask;
    }
  }

  lemma MasksApart(i: nat, j: nat)
    requires i < 32 && j < 32
    ensures Mask(i) & Mask(j) != 0 <==> i == j
  {
    var a, b := i as bv32, j as bv32;
    assert (1 as bv32) << i == (1 as bv32) << a;
    assert (1 as bv32) << j == (1 as bv32) << b;
  }

  lemma BitSet(x: bv32, m: bv32, n: bv32)
    ensures (x | m) & n != 0 <==> x & n != 0 || m & n != 0
  {
  }

  lemma BitClear(x: bv32, m: bv32, n: bv32)
    ensures (x & !m) & m == 0
    ensures m & n == 0 ==> (x & !m) & n == x & n
  {
  }
}
