/**
 The program object of the native (GDB-backed) Visual Studio debug engine:
 the modules and threads the debuggee has, the thread GDB currently has
 selected, whether the program is running, and the requests it makes of
 the GDB client and of the debug engine.

 Modules and threads are objects compared by reference, as `List.Contains`
 and `List.Remove` compare them. Every request to GDB or broadcast to the
 engine is appended to `requests`; whether such a foreign call throws is a
 parameter of the operation that makes it.
 */
module CLangDebuggeeProgram {
  import opened Text

  // ---------------------------------------------------------------------------
  // HRESULT codes
  // ---------------------------------------------------------------------------

  const S_OK: int32 := 0
  /** 0x80004005 as a C# `int` */
  const E_FAIL: int32 := -0x7FFF_BFFB
  /** 0x80004001 as a C# `int` */
  const E_NOTIMPL: int32 := -0x7FFF_BFFF

  // ---------------------------------------------------------------------------
  // The objects the program keeps
  // ---------------------------------------------------------------------------

  /** A loaded module; only its name is used here. */
  class DebuggeeModule {
    const name: string

    constructor (name: string)
      ensures this.name == name
    {
      this.name := name;
    }
  }

  /** A thread of the debuggee. `id` is what `GetThreadId` reports: the
      thread's id, or `None` where the call does not return `S_OK`. */
  class DebuggeeThread {
    const id: Option<uint32>

    constructor (id: Option<uint32>)
      ensures this.id == id
    {
      this.id := id;
    }
  }

  /** `enum_STEPKIND` */
  datatype StepKind = StepInto | StepOver | StepOut | StepBackwards

  /** The `CLangDebuggerEvent`s broadcast to the engine */
  datatype EngineEvent = StartServer | AttachClient | StopClient | ContinueClient | DetachClient | StopServer | TerminateClient

  /** A call on the GDB client, or a broadcast to the engine */
  datatype Request =
    | GdbCommand(command: string)
    | GdbStep(kind: StepKind, unit: nat)
    | Broadcast(event: EngineEvent)

  /** `ArgumentNullException` and `ArgumentException` */
  datatype ArgumentError = ArgumentNull | ArgumentInvalid

  // ---------------------------------------------------------------------------
  // The module and thread lists
  // ---------------------------------------------------------------------------

  predicate Distinct<T(==)>(list: seq<T>) {
    forall i, j | 0 <= i < j < |list| :: list[i] != list[j]
  }

  /** A list after a change, and the exception the change threw, if any */
  datatype Update<T> = Update(list: seq<T>, error: Option<ArgumentError>)

  /** `AddModule` / `AddThread` on a non-null element: an element already
      listed is refused, any other is appended. */
  function Add<T(==)>(list: seq<T>, x: T): Update<T> {
    if x in list then Update(list, Some(ArgumentInvalid)) else Update(list + [x], None)
  }

  /** `List.Remove`: the first occurrence of `x` is taken out */
  function RemoveFirst<T(==)>(list: seq<T>, x: T): seq<T> {
    if list == [] then []
    else if list[0] == x then list[1..]
    else [list[0]] + RemoveFirst(list[1..], x)
  }

  /** `RemoveModule` / `RemoveThread` on a non-null element: an element not
      listed is refused, any other is removed. */
  function Remove<T(==)>(list: seq<T>, x: T): Update<T> {
    if x !in list then Update(list, Some(ArgumentInvalid)) else Update(RemoveFirst(list, x), None)
  }

  /** Adding keeps the list free of duplicates; a refused add changes nothing. */
  lemma AddKeepsDistinct<T>(list: seq<T>, x: T)
    requires Distinct(list)
    ensures Distinct(Add(list, x).list)
    ensures Add(list, x).error.None? <==> x !in list
    ensures x in Add(list, x).list
  {
  }

  /** `List.Remove` takes out exactly the first occurrence: the elements
      before and after it keep their order. */
  lemma {:induction false} RemoveFirstSplits<T>(list: seq<T>, x: T) returns (i: nat)
    requires x in list
    ensures i < |list| && list[i] == x && x !in list[..i]
    ensures RemoveFirst(list, x) == list[..i] + list[i + 1..]
  {
    if list[0] == x {
      i := 0;
    } else {
      var j := RemoveFirstSplits(list[1..], x);
      i := j + 1;
      assert list[..i] == [list[0]] + list[1..][..j];
      assert list[i + 1..] == list[1..][j + 1..];
    }
  }

  /** Removing takes one copy of `x` out of the list and nothing else. */
  lemma {:induction false} RemoveFirstMultiset<T>(list: seq<T>, x: T)
    requires x in list
    ensures multiset(RemoveFirst(list, x)) == multiset(list) - multiset{x}
  {
    var i := RemoveFirstSplits(list, x);
    assert list == list[..i] + [x] + list[i + 1..];
  }

  /** Removing from a list without duplicates leaves one without duplicates
      and without `x`. */
  lemma RemoveKeepsDistinct<T>(list: seq<T>, x: T)
    requires Distinct(list)
    ensures Distinct(Remove(list, x).list)
    ensures x !in Remove(list, x).list
    ensures Remove(list, x).error.None? <==> x in list
  {
    if x in list {
      var i := RemoveFirstSplits(list, x);
      var r := list[..i] + list[i + 1..];
      forall a, b | 0 <= a < b < |r|
        ensures r[a] != r[b]
      {
        var a' := if a < i then a else a + 1;
        var b' := if b < i then b else b + 1;
        assert r[a] == list[a'] && r[b] == list[b'];
      }
      forall k | 0 <= k < |r|
        ensures r[k] != x
      {
        var k' := if k < i then k else k + 1;
        assert r[k] == list[k'];
      }
    }
  }

  /** Removing what was just added gives the list back. */
  lemma {:induction false} AddThenRemove<T>(list: seq<T>, x: T)
    requires x !in list
    ensures Remove(Add(list, x).list, x) == Update(list, None)
    decreases |list|
  {
    if list == [] {
      assert [x][1..] == [];
    } else {
      AddThenRemove(list[1..], x);
      assert (list + [x])[1..] == list[1..] + [x];
    }
  }

  // ---------------------------------------------------------------------------
  // Look-ups
  // ---------------------------------------------------------------------------

  /** The index of the first element that satisfies `p`, if any: the
      `foreach` with an early `return` of `GetModule` and `GetThread` */
  function FirstMatch<T>(list: seq<T>, p: T -> bool): (r: Option<nat>)
    ensures r.None? <==> forall i | 0 <= i < |list| :: !p(list[i])
    ensures r.Some? ==> r.value < |list| && p(list[r.value]) && forall j | 0 <= j < r.value :: !p(list[j])
  {
    if list == [] then None
    else if p(list[0]) then Some(0)
    else
      var r := FirstMatch(list[1..], p);
      if r.Some? then Some(r.value + 1) else None
  }

  /** `module.Name.Equals (moduleName)` */
  predicate HasName(name: string, m: DebuggeeModule) {
    m.name == name
  }

  /** `GetThreadId` succeeds and reports `id` */
  predicate HasId(id: uint32, thread: DebuggeeThread) {
    thread.id == Some(id)
  }

  /** The command that makes GDB select a thread */
  function ThreadSelectCommand(id: uint32): string {
    "-thread-select " + DecimalString(id as nat)
  }

  /** Each thread id has its own select command: GDB is never asked for a
      thread other than the one requested. */
  lemma ThreadSelectCommandInjective(a: uint32, b: uint32)
    ensures ThreadSelectCommand(a) == ThreadSelectCommand(b) <==> a == b
  {
    if ThreadSelectCommand(a) == ThreadSelectCommand(b) {
      var prefix := |"-thread-select "|;
      assert DecimalString(a as nat) == ThreadSelectCommand(a)[prefix..];
      assert DecimalString(b as nat) == ThreadSelectCommand(b)[prefix..];
      DecimalRoundTrip(a as nat);
      DecimalRoundTrip(b as nat);
    }
  }

  /** The requests a sequence of broadcasts makes, in order */
  function Broadcasts(events: seq<EngineEvent>): (r: seq<Request>)
    ensures |r| == |events| && forall i | 0 <= i < |events| :: r[i] == Broadcast(events[i])
  {
    seq(|events|, i requires 0 <= i < |events| => Broadcast(events[i]))
  }

  /** How many of `n` foreign calls in a row take effect when the one at
      index `failAt` throws: all of them if none does. */
  function Completed(n: nat, failAt: Option<nat>): (k: nat)
    ensures k <= n
    ensures k < n <==> failAt.Some? && failAt.value < n
  {
    if failAt.Some? && failAt.value < n then failAt.value else n
  }

  // ---------------------------------------------------------------------------
  // The program
  // ---------------------------------------------------------------------------

  /** `CLangDebuggeeProgram` */
  class CLangDebuggeeProgram {
    var isRunning: bool
    var currentThreadId: uint32
    var modules: seq<DebuggeeModule>
    var threads: seq<DebuggeeThread>
    var requests: seq<Request>

    /** Lists free of duplicates, the invariant the add and remove operations keep */
    predicate Valid()
      reads this
    {
      Distinct(modules) && Distinct(threads)
    }

    constructor ()
      ensures Valid()
      ensures isRunning && modules == [] && threads == []
      ensures currentThreadId == 0 && requests == []
    {
      isRunning := true;
      currentThreadId := 0;
      modules := [];
      threads := [];
      requests := [];
    }

    /** `SelectThread`: a null thread or a failing id query throws; GDB is
        asked to switch only when the id differs from the current one.
        `gdbThrows` says whether that GDB command throws. */
    method SelectThread(thread: DebuggeeThread?, gdbThrows: bool) returns (thrown: bool)
      modifies this
      ensures modules == old(modules) && threads == old(threads) && isRunning == old(isRunning)
      ensures thrown <==> thread == null || thread.id.None? || (thread.id.value != old(currentThreadId) && gdbThrows)
      ensures thrown ==> currentThreadId == old(currentThreadId) && requests == old(requests)
      ensures !thrown ==> currentThreadId == thread.id.value
      ensures !thrown ==> requests == old(requests) + (if thread.id.value == old(currentThreadId) then [] else [GdbCommand(ThreadSelectCommand(thread.id.value))])
    {
      if thread == null || thread.id.None? {
        return true;
      }
      var requested := thread.id.value;
      if requested != currentThreadId {
        if gdbThrows {
          return true;
        }
        requests := requests + [GdbCommand(ThreadSelectCommand(requested))];
        currentThreadId := requested;
      }
      return false;
    }

    method AddModule(m: DebuggeeModule?) returns (error: Option<ArgumentError>)
      modifies this
      ensures threads == old(threads) && isRunning == old(isRunning)
      ensures currentThreadId == old(currentThreadId) && requests == old(requests)
      ensures m == null ==> error == Some(ArgumentNull) && modules == old(modules)
      ensures m != null ==> Update(modules, error) == Add<DebuggeeModule>(old(modules), m)
      ensures old(Valid()) ==> Valid()
    {
      if m == null {
        return Some(ArgumentNull);
      }
      var added: DebuggeeModule := m;
      if added in modules {
        return Some(ArgumentInvalid);
      }
      if Distinct(modules) {
        AddKeepsDistinct(modules, added);
      }
      modules := modules + [added];
      return None;
    }

    /** `GetModule`: the first module with the given name, or null */
    method GetModule(moduleName: string) returns (found: DebuggeeModule?)
      ensures var r := FirstMatch(modules, m => HasName(moduleName, m)); found == if r.Some? then modules[r.value] else null
    {
      var i := 0;
      while i < |modules|
        invariant 0 <= i <= |modules|
        invariant forall j | 0 <= j < i :: !HasName(moduleName, modules[j])
      {
        if modules[i].name == moduleName {
          return modules[i];
        }
        i := i + 1;
      }
      return null;
    }

    method RemoveModule(m: DebuggeeModule?) returns (error: Option<ArgumentError>)
      modifies this
      ensures threads == old(threads) && isRunning == old(isRunning)
      ensures currentThreadId == old(currentThreadId) && requests == old(requests)
      ensures m == null ==> error == Some(ArgumentNull) && modules == old(modules)
      ensures m != null ==> Update(modules, error) == Remove<DebuggeeModule>(old(modules), m)
      ensures old(Valid()) ==> Valid()
    {
      if m == null {
        return Some(ArgumentNull);
      }
      var removed: DebuggeeModule := m;
      if removed !in modules {
        return Some(ArgumentInvalid);
      }
      if Distinct(modules) {
        RemoveKeepsDistinct(modules, removed);
      }
      modules := RemoveFirst(modules, removed);
      return None;
    }

    method AddThread(thread: DebuggeeThread?) returns (error: Option<ArgumentError>)
      modifies this
      ensures modules == old(modules) && isRunning == old(isRunning)
      ensures currentThreadId == old(currentThreadId) && requests == old(requests)
      ensures thread == null ==> error == Some(ArgumentNull) && threads == old(threads)
      ensures thread != null ==> Update(threads, error) == Add<DebuggeeThread>(old(threads), thread)
      ensures old(Valid()) ==> Valid()
    {
      if thread == null {
        return Some(ArgumentNull);
      }
      var added: DebuggeeThread := thread;
      if added in threads {
        return Some(ArgumentInvalid);
      }
      if Distinct(threads) {
        AddKeepsDistinct(threads, added);
      }
      threads := threads + [added];
      return None;
    }

    /** `GetThread`: the first thread whose id query succeeds with `threadId`, or null */
    method GetThread(threadId: uint32) returns (thread: DebuggeeThread?)
      ensures var r := FirstMatch(threads, t => HasId(threadId, t)); thread == if r.Some? then threads[r.value] else null
    {
      var i := 0;
      while i < |threads|
        invariant 0 <= i <= |threads|
        invariant forall j | 0 <= j < i :: !HasId(threadId, threads[j])
      {
        if threads[i].id.Some? && threads[i].id.value == threadId {
          return threads[i];
        }
        i := i + 1;
      }
      return null;
    }

    method RemoveThread(thread: DebuggeeThread?) returns (error: Option<ArgumentError>)
      modifies this
      ensures modules == old(modules) && isRunning == old(isRunning)
      ensures currentThreadId == old(currentThreadId) && requests == old(requests)
      ensures thread == null ==> error == Some(ArgumentNull) && threads == old(threads)
      ensures thread != null ==> Update(threads, error) == Remove<DebuggeeThread>(old(threads), thread)
      ensures old(Valid()) ==> Valid()
    {
      if thread == null {
        return Some(ArgumentNull);
      }
      var removed: DebuggeeThread := thread;
      if removed !in threads {
        return Some(ArgumentInvalid);
      }
      if Distinct(threads) {
        RemoveKeepsDistinct(threads, removed);
      }
      threads := RemoveFirst(threads, removed);
      return None;
    }

    method SetRunning(running: bool)
      modifies this
      ensures isRunning == running
      ensures modules == old(modules) && threads == old(threads)
      ensures currentThreadId == old(currentThreadId) && requests == old(requests)
    {
      isRunning := running;
    }

    /** `Engine.Broadcast` of each event in turn. `failAt` is the index of
        the broadcast that throws, if any: the broadcasts before it have
        taken effect, and the exception ends the sequence with `E_FAIL`. */
    method BroadcastAll(events: seq<EngineEvent>, failAt: Option<nat>) returns (hr: int32)
      modifies this
      ensures modules == old(modules) && threads == old(threads)
      ensures isRunning == old(isRunning) && currentThreadId == old(currentThreadId)
      ensures var k := Completed(|events|, failAt);
        && hr == (if k < |events| then E_FAIL else S_OK)
        && requests == old(requests) + Broadcasts(events[..k])
    {
      var i := 0;
      while i < |events|
        invariant 0 <= i <= |events|
        invariant failAt.None? || failAt.value >= i
        invariant modules == old(modules) && threads == old(threads)
        invariant isRunning == old(isRunning) && currentThreadId == old(currentThreadId)
        invariant requests == old(requests) + Broadcasts(events[..i])
      {
        if failAt == Some(i) {
          return E_FAIL;
        }
        assert events[..i + 1] == events[..i] + [events[i]];
        requests := requests + [Broadcast(events[i])];
        i := i + 1;
      }
      return S_OK;
    }

    /** `Attach`: asks the engine to start gdbserver, then to attach the
        client. `failAt` is the broadcast that throws, if any. */
    method Attach(failAt: Option<nat>) returns (hr: int32)
      modifies this
      ensures modules == old(modules) && threads == old(threads)
      ensures isRunning == old(isRunning) && currentThreadId == old(currentThreadId)
      ensures failAt == Some(0) ==> hr == E_FAIL && requests == old(requests)
      ensures failAt == Some(1) ==> hr == E_FAIL && requests == old(requests) + [Broadcast(StartServer)]
      ensures failAt.None? || failAt.value >= 2 ==>
        hr == S_OK && requests == old(requests) + [Broadcast(StartServer), Broadcast(AttachClient)]
    {
      hr := BroadcastAll([StartServer, AttachClient], failAt);
    }

    method CanDetach() returns (hr: int32)
      ensures hr == S_OK
    {
      hr := S_OK;
    }

    /** `CauseBreak`: asks the engine to stop the client */
    method CauseBreak(broadcastThrows: bool) returns (hr: int32)
      modifies this
      ensures modules == old(modules) && threads == old(threads)
      ensures isRunning == old(isRunning) && currentThreadId == old(currentThreadId)
      ensures broadcastThrows ==> hr == E_FAIL && requests == old(requests)
      ensures !broadcastThrows ==> hr == S_OK && requests == old(requests) + [Broadcast(StopClient)]
    {
      hr := BroadcastAll([StopClient], if broadcastThrows then Some(0) else None);
    }

    /** `Continue`: a stopped program is continued through the engine; a
        running one is left alone. The thread argument is not used. */
    method Continue(thread: DebuggeeThread?, broadcastThrows: bool) returns (hr: int32)
      modifies this
      ensures modules == old(modules) && threads == old(threads)
      ensures isRunning == old(isRunning) && currentThreadId == old(currentThreadId)
      ensures isRunning ==> hr == S_OK && requests == old(requests)
      ensures !isRunning && broadcastThrows ==> hr == E_FAIL && requests == old(requests)
      ensures !isRunning && !broadcastThrows ==> hr == S_OK && requests == old(requests) + [Broadcast(ContinueClient)]
    {
      if !isRunning {
        hr := BroadcastAll([ContinueClient], if broadcastThrows then Some(0) else None);
        return;
      }
      return S_OK;
    }

    /** `Detach`: asks the engine to detach the client, then to stop
        gdbserver. `failAt` is the broadcast that throws, if any. */
    method Detach(failAt: Option<nat>) returns (hr: int32)
      modifies this
      ensures modules == old(modules) && threads == old(threads)
      ensures isRunning == old(isRunning) && currentThreadId == old(currentThreadId)
      ensures failAt == Some(0) ==> hr == E_FAIL && requests == old(requests)
      ensures failAt == Some(1) ==> hr == E_FAIL && requests == old(requests) + [Broadcast(DetachClient)]
      ensures failAt.None? || failAt.value >= 2 ==>
        hr == S_OK && requests == old(requests) + [Broadcast(DetachClient), Broadcast(StopServer)]
    {
      hr := BroadcastAll([DetachClient, StopServer], failAt);
    }

    /** `Execute`: `Continue` on the current thread, its failure turned into `E_FAIL` */
    method Execute(broadcastThrows: bool) returns (hr: int32)
      modifies this
      ensures modules == old(modules) && threads == old(threads)
      ensures isRunning == old(isRunning) && currentThreadId == old(currentThreadId)
      ensures hr == (if !isRunning && broadcastThrows then E_FAIL else S_OK)
      ensures requests == old(requests) + (if isRunning || broadcastThrows then [] else [Broadcast(ContinueClient)])
    {
      var thread := GetThread(currentThreadId);
      var continued := Continue(thread, broadcastThrows);
      if continued != S_OK {
        return E_FAIL;
      }
      return S_OK;
    }

    /** `ExecuteOnThread`: selects the thread, then `Execute` */
    method ExecuteOnThread(thread: DebuggeeThread?, gdbThrows: bool, broadcastThrows: bool) returns (hr: int32)
      modifies this
      ensures modules == old(modules) && threads == old(threads) && isRunning == old(isRunning)
      ensures thread == null || thread.id.None? ==> hr == E_FAIL && requests == old(requests) && currentThreadId == old(currentThreadId)
      ensures thread != null && thread.id.Some? ==>
        var id := thread.id.value;
        var select := if id == old(currentThreadId) then [] else [GdbCommand(ThreadSelectCommand(id))];
        if gdbThrows && select != [] then
          hr == E_FAIL && currentThreadId == old(currentThreadId) && requests == old(requests)
        else
          hr == (if !isRunning && broadcastThrows then E_FAIL else S_OK) && currentThreadId == id
          && requests == old(requests) + select + (if isRunning || broadcastThrows then [] else [Broadcast(ContinueClient)])
    {
      var selectThrown := SelectThread(thread, gdbThrows);
      if selectThrown {
        return E_FAIL;
      }
      hr := Execute(broadcastThrows);
    }

    /** `Step`: selects the thread first, then asks GDB to step; stepping
        backwards is not implemented. `selectThrows` says whether GDB throws
        on the thread switch, `stepThrows` whether it throws on the step
        command; a switch that succeeded stays in effect when the step throws. */
    method Step(thread: DebuggeeThread?, kind: StepKind, unit: nat, selectThrows: bool, stepThrows: bool) returns (hr: int32)
      modifies this
      ensures modules == old(modules) && threads == old(threads) && isRunning == old(isRunning)
      ensures thread == null || thread.id.None? ==> hr == E_FAIL && requests == old(requests) && currentThreadId == old(currentThreadId)
      ensures thread != null && thread.id.Some? ==>
        var id := thread.id.value;
        var select := if id == old(currentThreadId) then [] else [GdbCommand(ThreadSelectCommand(id))];
        if selectThrows && select != [] then
          hr == E_FAIL && currentThreadId == old(currentThreadId) && requests == old(requests)
        else if kind == StepBackwards then
          hr == E_NOTIMPL && currentThreadId == id && requests == old(requests) + select
        else if stepThrows then
          hr == E_FAIL && currentThreadId == id && requests == old(requests) + select
        else
          hr == S_OK && currentThreadId == id && requests == old(requests) + select + [GdbStep(kind, unit)]
    {
      var selectThrown := SelectThread(thread, selectThrows);
      if selectThrown {
        return E_FAIL;
      }
      if kind == StepBackwards {
        return E_NOTIMPL;
      }
      if stepThrows {
        return E_FAIL;
      }
      requests := requests + [GdbStep(kind, unit)];
      return S_OK;
    }

    /** `Terminate`: asks the engine to terminate the client */
    method Terminate(broadcastThrows: bool) returns (hr: int32)
      modifies this
      ensures modules == old(modules) && threads == old(threads)
      ensures isRunning == old(isRunning) && currentThreadId == old(currentThreadId)
      ensures broadcastThrows ==> hr == E_FAIL && requests == old(requests)
      ensures !broadcastThrows ==> hr == S_OK && requests == old(requests) + [Broadcast(TerminateClient)]
    {
      hr := BroadcastAll([TerminateClient], if broadcastThrows then Some(0) else None);
    }

    /** `EnumCodeContexts`: not implemented; the enumerator is null */
    method EnumCodeContexts() returns (hr: int32, enumerator: Option<seq<nat>>)
      ensures hr == E_NOTIMPL && enumerator == None
    {
      return E_NOTIMPL, None;
    }

    /** `EnumCodePaths`: not implemented; both out-parameters are null */
    method EnumCodePaths() returns (hr: int32, enumerator: Option<seq<nat>>, safety: Option<nat>)
      ensures hr == E_NOTIMPL && enumerator == None && safety == None
    {
      return E_NOTIMPL, None, None;
    }

    /** `GetDebugProperty`: not implemented; the property is null */
    method GetDebugProperty() returns (hr: int32, property: Option<nat>)
      ensures hr == E_NOTIMPL && property == None
    {
      return E_NOTIMPL, None;
    }

    /** `GetENCUpdate`: edit and continue is not supported; the update is null */
    method GetENCUpdate() returns (hr: int32, update: Option<nat>)
      ensures hr == E_NOTIMPL && update == None
    {
      return E_NOTIMPL, None;
    }

    /** `WriteDump`: not implemented */
    method WriteDump(dumpUrl: string) returns (hr: int32)
      ensures hr == E_NOTIMPL
    {
      return E_NOTIMPL;
    }
  }
}
