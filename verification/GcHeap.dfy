/** The objects that the collector (lgc.c) sees, what each of them refers to, and
    reachability. */
module GcHeap {

  type Ref = nat

  // A tagged value: nil, some other value that is not collectable, or an object.
  datatype Value = Nil | Plain | Obj(ref: Ref)

  datatype Entry = Entry(key: Value, val: Value)

  // What a `__mode' string asks for.
  datatype Mode = Mode(k: bool, v: bool)

  const STRONG := Mode(false, false)

  // An upvalue lives in a stack slot of a thread while it is open.
  datatype Place = Open(th: Ref, idx: nat) | Closed(v: Value)

  datatype Body =
    | Str(text: seq<char>)
    | Udata(meta: Value, env: Value)
    | Upval(place: Place)
    | Closure(env: Value, proto: Value, upvals: seq<Value>)
    | Table(meta: Value, mode: Mode, arr: seq<Value>, nodes: seq<Entry>)
    | Thread(gt: Value, stack: seq<Value>, openupval: seq<Ref>)
    | Proto(names: seq<Ref>, consts: seq<Value>, protos: seq<Value>)

  type Heap = map<Ref, Body>

  // The hash that luaS_newlstr computes; of a long string it looks at every `step'th byte.
  function Mix(h: bv32, c: char): bv32 {
    h ^ ((h << 5) + (h >> 2) + (c as int % 256) as bv32)
  }

  function HashFrom(s: seq<char>, l1: nat, step: nat, h: bv32): bv32
    requires l1 <= |s| && 0 < step
    decreases l1
  {
    if l1 < step then h else HashFrom(s, l1 - step, step, Mix(h, s[l1 - 1]))
  }

  function HashOf(s: seq<char>): nat {
    HashFrom(s, |s|, |s| / 32 + 1, (|s| % 0x1_0000_0000) as bv32) as nat
  }

  predicate IsOpen(b: Body) { b.Upval? && b.place.Open? }

  function Slot(h: Heap, th: Ref, idx: nat): Value {
    if th in h && h[th].Thread? && idx < |h[th].stack| then h[th].stack[idx] else Nil
  }

  function UpvalValue(h: Heap, p: Place): Value {
    match p
    case Open(th, idx) => Slot(h, th, idx)
    case Closed(v) => v
  }

  // A table is weak when the metatable it has now carries a `__mode'.
  function ModeOf(h: Heap, meta: Value): Mode {
    if meta.Obj? && meta.ref in h && h[meta.ref].Table? then h[meta.ref].mode else STRONG
  }

  predicate EntryRefers(e: Entry, m: Mode, r: Ref) {
    e.val != Nil && ((!m.k && e.key == Obj(r)) || (!m.v && e.val == Obj(r)))
  }

  predicate TableRefers(b: Body, m: Mode, r: Ref)
    requires b.Table?
  {
    || b.meta == Obj(r)
    || (!m.v && Obj(r) in b.arr)
    || exists e :: e in b.nodes && EntryRefers(e, m, r)
  }

  predicate RefersAs(h: Heap, b: Body, m: Mode, r: Ref) {
    match b
    case Str(_) => false
    case Udata(meta, env) => meta == Obj(r) || env == Obj(r)
    case Upval(p) => UpvalValue(h, p) == Obj(r)
    case Closure(env, proto, upvals) => env == Obj(r) || proto == Obj(r) || Obj(r) in upvals
    case Table(_, _, _, _) => TableRefers(b, m, r)
    case Thread(gt, stack, _) => gt == Obj(r) || Obj(r) in stack
    case Proto(names, consts, protos) => r in names || Obj(r) in consts || Obj(r) in protos
  }

  /** `b' holds a reference to `r' in some live slot, weak or not. */
  predicate Holds(h: Heap, b: Body, r: Ref) {
    RefersAs(h, b, STRONG, r)
  }

  /** `b' keeps `r' alive: the weak slots of a weak table do not count. */
  predicate Keeps(h: Heap, b: Body, r: Ref) {
    RefersAs(h, b, if b.Table? then ModeOf(h, b.meta) else STRONG, r)
  }

  lemma ClosureKeeps(h: Heap, b: Body)
    requires b.Closure?
    ensures forall r :: Keeps(h, b, r) <==> b.env == Obj(r) || b.proto == Obj(r) || Obj(r) in b.upvals
  {
  }

  lemma ProtoKeeps(h: Heap, b: Body)
    requires b.Proto?
    ensures forall r :: Keeps(h, b, r) <==> r in b.names || Obj(r) in b.consts || Obj(r) in b.protos
  {
  }

  lemma ThreadKeeps(h: Heap, b: Body)
    requires b.Thread?
    ensures forall r :: Keeps(h, b, r) <==> b.gt == Obj(r) || Obj(r) in b.stack
  {
  }

  lemma KeepsHolds(h: Heap, b: Body, r: Ref)
    requires Keeps(h, b, r)
    ensures Holds(h, b, r)
  {
    if b.Table? && b.meta != Obj(r) && Obj(r) !in b.arr {
      var m := ModeOf(h, b.meta);
      var e :| e in b.nodes && EntryRefers(e, m, r);
      assert EntryRefers(e, STRONG, r);
    }
  }

  /** What each kind of object keeps alive, field by field. A metatable with a `__mode' makes the keys or the
      values of a table weak; the metatable itself is always kept, and an entry without a value keeps nothing. */
  lemma KeepsMeans(h: Heap, b: Body, r: Ref)
    ensures Keeps(h, b, r) <==>
              match b
              case Str(_) => false
              case Udata(meta, env) => meta == Obj(r) || env == Obj(r)
              case Upval(place) =>
                (match place
                 case Closed(v) => v == Obj(r)
                 case Open(th, idx) => th in h && h[th].Thread? && idx < |h[th].stack| && h[th].stack[idx] == Obj(r))
              case Closure(env, proto, upvals) => env == Obj(r) || proto == Obj(r) || Obj(r) in upvals
              case Thread(gt, stack, _) => gt == Obj(r) || Obj(r) in stack
              case Proto(names, consts, protos) => r in names || Obj(r) in consts || Obj(r) in protos
              case Table(meta, _, arr, nodes) =>
                var weak := meta.Obj? && meta.ref in h && h[meta.ref].Table?;
                var weakkeys, weakvalues := weak && h[meta.ref].mode.k, weak && h[meta.ref].mode.v;
                || meta == Obj(r)
                || (!weakvalues && Obj(r) in arr)
                || (!weakkeys && exists e :: e in nodes && e.val != Nil && e.key == Obj(r))
                || (!weakvalues && exists e :: e in nodes && e.val == Obj(r))
  {
    if b.Table? {
      TableKeeps(h, b, r);
    }
  }

  lemma TableKeeps(h: Heap, b: Body, r: Ref)
    requires b.Table?
    ensures var m := ModeOf(h, b.meta);
            Keeps(h, b, r) <==>
              || b.meta == Obj(r)
              || (!m.v && Obj(r) in b.arr)
              || (!m.k && exists e :: e in b.nodes && e.val != Nil && e.key == Obj(r))
              || (!m.v && exists e :: e in b.nodes && e.val == Obj(r))
  {
    var m := ModeOf(h, b.meta);
    forall e | e in b.nodes
      ensures EntryRefers(e, m, r) <==>
              (!m.k && e.val != Nil && e.key == Obj(r)) || (!m.v && e.val == Obj(r))
    {
    }
  }
}
