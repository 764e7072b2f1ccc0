/**
  The native dispatch table (`sqlite3_module`) that `newModule` builds for a
  host module: a version number and one callback per entry point. Native
  memory is an abstract heap of tables.
 */
module VtabTable {
  import opened Base

  /** A host module. Only its `Version()` is consulted; `id` tells modules apart. */
  datatype Module = Module(id: nat, version: int64)

  /** The entry points of `sqlite3_module`, in the order of its fields. */
  datatype Slot =
    | Create | Connect | BestIndex | Disconnect | Destroy | Open | Close
    | Filter | Next | Eof | Column | Rowid | Update | Begin | Sync | Commit
    | Rollback | FindFunction | Rename | Savepoint | Release | RollbackTo
    | ShadowName

  const SLOTS: seq<Slot> := [
    Create, Connect, BestIndex, Disconnect, Destroy, Open, Close,
    Filter, Next, Eof, Column, Rowid, Update, Begin, Sync, Commit,
    Rollback, FindFunction, Rename, Savepoint, Release, RollbackTo,
    ShadowName]

  /** The position of a slot's field in `sqlite3_module`, after `iVersion`. */
  function SlotIndex(s: Slot): (r: nat) {
    match s
    case Create => 0        case Connect => 1      case BestIndex => 2
    case Disconnect => 3    case Destroy => 4      case Open => 5
    case Close => 6         case Filter => 7       case Next => 8
    case Eof => 9           case Column => 10      case Rowid => 11
    case Update => 12       case Begin => 13       case Sync => 14
    case Commit => 15       case Rollback => 16    case FindFunction => 17
    case Rename => 18       case Savepoint => 19   case Release => 20
    case RollbackTo => 21   case ShadowName => 22
  }

  /** `SLOTS` lists every slot once, at its field position. */
  lemma SlotIndexIsPosition(s: Slot)
    ensures SlotIndex(s) < |SLOTS| == 23
    ensures SLOTS[SlotIndex(s)] == s
  {
  }

  /** A field of the table: NULL, or the package's trampoline for that entry point (`xCreate`, ...). */
  datatype Callback = NullCallback | Trampoline(slot: Slot)

  datatype NativeModule = NativeModule(iVersion: int32, callbacks: seq<Callback>)

  /** The callback an engine call on slot `s` reaches. */
  function Dispatch(t: NativeModule, s: Slot): (r: Callback) {
    if SlotIndex(s) < |t.callbacks| then t.callbacks[SlotIndex(s)] else NullCallback
  }

  /**
    The table `newModule` writes: `iVersion` is `int32(m.Version())`, and
    every field, including those of versions 2 and 3 of the structure, holds
    its trampoline, whatever the version says.
   */
  function BuildTable(m: Module): (t: NativeModule)
    ensures t.iVersion == ToInt32(m.version)
    ensures |t.callbacks| == 23
    ensures forall s: Slot :: Dispatch(t, s) == Trampoline(s)
  {
    var t := NativeModule(ToInt32(m.version), seq(|SLOTS|, i requires 0 <= i < |SLOTS| => Trampoline(SLOTS[i])));
    forall s: Slot ensures Dispatch(t, s) == Trampoline(s) {
      SlotIndexIsPosition(s);
    }
    t
  }

  /** A native address; 0 is NULL. */
  type Ptr = nat

  /** Native memory holding dispatch tables; `next` is above every address handed out. */
  datatype Heap = Heap(next: nat, live: map<Ptr, NativeModule>)

  predicate HeapOk(h: Heap) {
    h.next > 0 && forall p :: p in h.live ==> 0 < p < h.next
  }

  /** `Xfree`: freeing NULL does nothing. */
  function Free(h: Heap, p: Ptr): (h': Heap)
    ensures HeapOk(h) ==> HeapOk(h')
    ensures p != 0 ==> h'.live == h.live - {p}
    ensures p == 0 ==> h' == h
  {
    if p == 0 then h else Heap(h.next, h.live - {p})
  }

  datatype Alloc = Alloc(p: Ptr, heap: Heap)

  /**
    `newModule`: a nil module gives NULL and allocates nothing; otherwise a
    fresh table is allocated and filled. It never returns an error.
   */
  function NewModule(h: Heap, m: Option<Module>): (a: Alloc)
    requires HeapOk(h)
    ensures HeapOk(a.heap)
    ensures m.None? ==> a.p == 0 && a.heap == h
    ensures m.Some? ==>
              && a.p != 0 && a.p !in h.live
              && a.heap.live == h.live[a.p := BuildTable(m.value)]
  {
    match m
    case None => Alloc(0, h)
    case Some(mod) => Alloc(h.next, Heap(h.next + 1, h.live[h.next := BuildTable(mod)]))
  }
}
