/**
  The per-connection module registry (`conn.modules`) and `CreateModule`,
  which registers, replaces or (with a nil module) unregisters a name.
 */
module VtabRegistry {
  import opened Base
  import opened VtabErrors
  import opened VtabTable

  /** `registeredModule`: the host module and the address of its native table. */
  datatype Registration = Registration(m: Module, table: Ptr)

  /** The parts of a connection the registry touches. */
  datatype Conn = Conn(modules: map<string, Registration>, heap: Heap)

  /** What `CreateModule` leaves behind and returns. */
  datatype Registered = Registered(conn: Conn, err: Option<Error>)

  /**
    Every registration points at a live table built from its own module, and
    no two names share a table.
   */
  ghost predicate Valid(c: Conn) {
    && HeapOk(c.heap)
    && (forall n :: n in c.modules ==>
          c.modules[n].table in c.heap.live && c.heap.live[c.modules[n].table] == BuildTable(c.modules[n].m))
    && (forall a, b :: a in c.modules && b in c.modules && a != b ==> c.modules[a].table != c.modules[b].table)
  }

  /** A fresh connection: no modules, no tables. */
  function NewConn(): (c: Conn)
    ensures Valid(c) && c.modules == map[]
  {
    Conn(map[], Heap(1, map[]))
  }

  /** The table address a nil-module registration frees: the zero value when the name is absent. */
  function TableOf(c: Conn, name: string): (r: Ptr) {
    if name in c.modules then c.modules[name].table else 0
  }

  /**
    The body of `CreateModule`. `freeOnFailure` says whether the table
    `newModule` allocated is freed when the native registration fails: the
    source does not (`CreateModuleAsWritten`), the corrected code does
    (`CreateModule`).
   */
  function Register(c: Conn, name: string, m: Option<Module>, reply: RegisterReply, freeOnFailure: bool): (r: Registered)
    requires HeapOk(c.heap)
  {
    var a := NewModule(c.heap, m);
    var err := CreateModuleNative(reply);
    if err.Some? then
      Registered(Conn(c.modules, if freeOnFailure then Free(a.heap, a.p) else a.heap), err)
    else
      match m
      case None => Registered(Conn(c.modules - {name}, Free(a.heap, TableOf(c, name))), None)
      case Some(mod) => Registered(Conn(c.modules[name := Registration(mod, a.p)], a.heap), None)
  }

  /** `CreateModule` as the source writes it. */
  function CreateModuleAsWritten(c: Conn, name: string, m: Option<Module>, reply: RegisterReply): (r: Registered)
    requires HeapOk(c.heap)
    ensures r.err.Some? && m.Some? ==> |r.conn.heap.live| == |c.heap.live| + 1
  {
    Register(c, name, m, reply, false)
  }

  /**
    `CreateModule`, freeing the fresh table when registration fails.

    On failure the registry and the live tables are unchanged. On success
    with nil the name is gone; with a module the name maps to that module and
    a freshly built table. No other name is touched.
   */
  function CreateModule(c: Conn, name: string, m: Option<Module>, reply: RegisterReply): (r: Registered)
    requires HeapOk(c.heap)
    ensures HeapOk(r.conn.heap)
    ensures r.err.None? <==> reply.conv.Ok? && reply.rc == SQLITE_OK
    ensures r.err.Some? ==> r.conn.modules == c.modules && r.conn.heap.live == c.heap.live
    ensures r.err.None? && m.None? ==> r.conn.modules == c.modules - {name}
    ensures r.err.None? && m.Some? ==>
              && name in r.conn.modules
              && r.conn.modules[name].m == m.value
              && r.conn.modules[name].table !in c.heap.live
              && r.conn.heap.live == c.heap.live[r.conn.modules[name].table := BuildTable(m.value)]
    ensures forall n :: n != name ==>
              (n in r.conn.modules <==> n in c.modules) && (n in c.modules ==> r.conn.modules[n] == c.modules[n])
  {
    var r := Register(c, name, m, reply, true);
    assert r.err.Some? && m.Some? ==> Free(NewModule(c.heap, m).heap, NewModule(c.heap, m).p).live == c.heap.live;
    r
  }

  /** Registration, replacement and unregistration keep the registry valid. */
  lemma CreateModulePreservesValid(c: Conn, name: string, m: Option<Module>, reply: RegisterReply)
    requires Valid(c)
    ensures Valid(CreateModule(c, name, m, reply).conn)
  {
    var r := CreateModule(c, name, m, reply);
    var c' := r.conn;
    if r.err.None? && m.None? {
      forall n | n in c'.modules
        ensures c'.modules[n].table in c'.heap.live
      {
        assert c'.modules[n] == c.modules[n];
        if name in c.modules {
          assert c.modules[n].table != c.modules[name].table;
        }
      }
    }
  }

  /**
    Unregistering a registered name frees exactly the table stored under it;
    every other table stays live. Afterwards the name resolves to nothing.
   */
  lemma UnregisterFreesTable(c: Conn, name: string, reply: RegisterReply)
    requires Valid(c) && name in c.modules
    requires reply.conv.Ok? && reply.rc == SQLITE_OK
    ensures var r := CreateModule(c, name, None, reply);
            && r.err.None?
            && name !in r.conn.modules
            && r.conn.heap.live == c.heap.live - {c.modules[name].table}
  {
  }

  /**
    Replacing a registered name does not free the table of the previous
    registration: it stays allocated, referenced by no name.
   */
  lemma ReplaceKeepsPreviousTable(c: Conn, name: string, m: Module, reply: RegisterReply)
    requires Valid(c) && name in c.modules
    requires reply.conv.Ok? && reply.rc == SQLITE_OK
    ensures var r := CreateModule(c, name, Some(m), reply);
            && c.modules[name].table in r.conn.heap.live
            && forall n :: n in r.conn.modules ==> r.conn.modules[n].table != c.modules[name].table
  {
    var r := CreateModule(c, name, Some(m), reply);
    forall n | n in r.conn.modules
      ensures r.conn.modules[n].table != c.modules[name].table
    {
      if n != name {
        assert r.conn.modules[n] == c.modules[n];
      }
    }
  }

  /** The two versions agree on everything but the memory left allocated after a failure. */
  lemma CreateModuleSameOutcome(c: Conn, name: string, m: Option<Module>, reply: RegisterReply)
    requires HeapOk(c.heap)
    ensures CreateModuleAsWritten(c, name, m, reply).err == CreateModule(c, name, m, reply).err
    ensures CreateModuleAsWritten(c, name, m, reply).conn.modules == CreateModule(c, name, m, reply).conn.modules
    ensures CreateModule(c, name, m, reply).err.None? ==>
              CreateModuleAsWritten(c, name, m, reply) == CreateModule(c, name, m, reply)
  {
  }

  /**
    Counterexample: a registration of a module that the engine refuses
    returns the error and leaves a freshly allocated table live that no
    registration refers to.
   */
  lemma FailedRegistrationLeaks(c: Conn, name: string, m: Module, reply: RegisterReply)
    requires Valid(c)
    requires reply.conv.Ok? && reply.rc != SQLITE_OK
    ensures var r := CreateModuleAsWritten(c, name, Some(m), reply);
            && r.err.Some?
            && r.conn.modules == c.modules
            && exists p :: p in r.conn.heap.live && p !in c.heap.live
                 && forall n :: n in r.conn.modules ==> r.conn.modules[n].table != p
  {
    var r := CreateModuleAsWritten(c, name, Some(m), reply);
    var p := c.heap.next;
    assert p in r.conn.heap.live && p !in c.heap.live;
  }
}
