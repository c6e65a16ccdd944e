/**
 * The message layer's decision logic (message.h): the keyed factory with
 * insert-if-absent registration, the dispatcher registry shared by every
 * dispatch type, and the event and branch-direction enumerations.
 */
module Messages {
  import opened Wrappers

  /** Kinds of search-tree events, numbered in declaration order. */
  datatype EventType = Heuristic | Infeasible | Branched | Candidate | Integer | Fathomed

  function EventCode(e: EventType): int
  {
    match e
    case Heuristic => 0
    case Infeasible => 1
    case Branched => 2
    case Candidate => 3
    case Integer => 4
    case Fathomed => 5
  }

  function EventOfCode(c: int): (r: Option<EventType>)
    ensures r.Some? <==> 0 <= c <= 5
    ensures r.Some? ==> EventCode(r.value) == c
    ensures forall e :: EventCode(e) == c ==> r == Some(e)
  {
    if c == 0 then Some(Heuristic)
    else if c == 1 then Some(Infeasible)
    else if c == 2 then Some(Branched)
    else if c == 3 then Some(Candidate)
    else if c == 4 then Some(Integer)
    else if c == 5 then Some(Fathomed)
    else None
  }

  /** Direction of a node relative to its parent: left, right, or middle (the root). */
  datatype BranchDirection = L | R | M

  function DirectionCode(d: BranchDirection): int
  {
    match d
    case L => 0
    case R => 1
    case M => 2
  }

  function DirectionOfCode(c: int): (r: Option<BranchDirection>)
    ensures r.Some? <==> 0 <= c <= 2
    ensures r.Some? ==> DirectionCode(r.value) == c
    ensures forall d :: DirectionCode(d) == c ==> r == Some(d)
  {
    if c == 0 then Some(L) else if c == 1 then Some(R) else if c == 2 then Some(M) else None
  }

  /** `create` on a key that was never defined throws `invalid_argument`. */
  datatype FactoryError = KeyNotRegistered

  /**
   * `Factory::define` as a value transition: the registry after the insert and
   * whether the key was new; an existing key keeps its creator.
   */
  function Register<K, C>(registry: map<K, C>, key: K, creator: C): (r: (map<K, C>, bool))
    ensures r.1 <==> key !in registry
    ensures key in r.0 && r.0[key] == if r.1 then creator else registry[key]
    ensures r.0.Keys == registry.Keys + {key}
    ensures forall k :: k in registry && k != key ==> r.0[k] == registry[k]
  {
    if key in registry then (registry, false) else (registry[key := creator], true)
  }

  /** `Factory::create` as a value: the registered creator, or the error for an unknown key. */
  function Lookup<K, C>(registry: map<K, C>, key: K): (r: Result<C, FactoryError>)
    ensures r.Ok? <==> key in registry
    ensures r.Ok? ==> r.value == registry[key]
    ensures r.Err? ==> r.error == KeyNotRegistered
  {
    if key in registry then Ok(registry[key]) else Err(KeyNotRegistered)
  }

  /**
   * A key resolves, after a define, to the creator given in that define when
   * the key was new and to what it resolved before otherwise; every other key
   * resolves as before.
   */
  lemma {:induction false} LookupAfterRegister<K, C>(registry: map<K, C>, key: K, creator: C, probe: K)
    ensures var (after, isNew) := Register(registry, key, creator);
            Lookup(after, probe) == if probe == key && isNew then Ok(creator) else Lookup(registry, probe)
  {
    var (after, isNew) := Register(registry, key, creator);
    if probe != key {
      assert probe in after <==> probe in registry;
    }
  }

  /** The keyed factory: a map from keys to creators, filled by `Define`. */
  class Factory<K(==), C> {
    var registry: map<K, C>

    constructor ()
      ensures registry == map[]
    {
      registry := map[];
    }

    /** `define`: inserts only when the key is absent; returns whether it was. */
    method Define(key: K, creator: C) returns (isNew: bool)
      modifies this
      ensures (registry, isNew) == Register(old(registry), key, creator)
    {
      isNew := key !in registry;
      if isNew {
        registry := registry[key := creator];
      }
    }

    /** `create`: what the creator registered under `key` makes, or `invalid_argument`. */
    function Create(key: K): (r: Result<C, FactoryError>)
      reads this
      ensures r.Ok? <==> key in registry
      ensures r.Ok? ==> r.value == registry[key]
      ensures r.Err? ==> r.error == KeyNotRegistered
    {
      Lookup(registry, key)
    }
  }

  /** The concrete dispatchers; a creator makes one of these. */
  datatype DispatchKind = LogDispatch | DebugDispatch | IpcDispatch

  /** `BaseMessageDispatch::define` throws `logic_error` on a name that is already registered. */
  datatype DispatchError = NameAlreadyRegistered(name: string) | NotRegistered(name: string)

  /**
   * `BaseMessageDispatch`'s one static factory, shared by all dispatch types,
   * so a registration lasts for the rest of the process.
   */
  class DispatchRegistry {
    const factory: Factory<string, DispatchKind>

    constructor ()
      ensures fresh(factory) && factory.registry == map[]
    {
      factory := new Factory<string, DispatchKind>();
    }

    /** `define<Derived>(name)`: registers, or fails when the name is taken (the registry is then unchanged). */
    method Define(name: string, kind: DispatchKind) returns (r: Result<(), DispatchError>)
      modifies factory
      ensures r.Ok? <==> name !in old(factory.registry)
      ensures r.Err? ==> r.error == NameAlreadyRegistered(name) && factory.registry == old(factory.registry)
      ensures r.Ok? ==> factory.registry == old(factory.registry)[name := kind]
    {
      var isNew := factory.Define(name, kind);
      if !isNew {
        return Err(NameAlreadyRegistered(name));
      }
      return Ok(());
    }

    /** `create(name)`: the dispatcher registered under `name`, or `invalid_argument`. */
    method Create(name: string) returns (r: Result<DispatchKind, DispatchError>)
      ensures r.Ok? <==> name in factory.registry
      ensures r.Ok? ==> r.value == factory.registry[name]
      ensures r.Err? ==> r.error == NotRegistered(name)
    {
      var made := factory.Create(name);
      if made.Err? {
        return Err(NotRegistered(name));
      }
      return Ok(made.value);
    }

    /**
     * The start of `branchAndBound`: define and create the log, debug and IPC
     * dispatchers in that order. It succeeds only on a registry holding none of
     * the three names, so a second run in the same process throws at the first define.
     */
    method DefineEngineDispatchers() returns (r: Result<(DispatchKind, DispatchKind, DispatchKind), DispatchError>)
      modifies factory
      ensures r.Ok? <==> "LogDispatch" !in old(factory.registry) && "DebugDispatch" !in old(factory.registry)
                          && "IPCDispatch" !in old(factory.registry)
      ensures r.Ok? ==> r.value == (LogDispatch, DebugDispatch, IpcDispatch)
      ensures r.Ok? ==> factory.registry == old(factory.registry)["LogDispatch" := LogDispatch]
                          ["DebugDispatch" := DebugDispatch]["IPCDispatch" := IpcDispatch]
      ensures "LogDispatch" in old(factory.registry) ==> r == Err(NameAlreadyRegistered("LogDispatch"))
    {
      var d := Define("LogDispatch", LogDispatch);
      if d.Err? {
        return Err(d.error);
      }
      var log := Create("LogDispatch");
      d := Define("DebugDispatch", DebugDispatch);
      if d.Err? {
        return Err(d.error);
      }
      var debug := Create("DebugDispatch");
      d := Define("IPCDispatch", IpcDispatch);
      if d.Err? {
        return Err(d.error);
      }
      var ipc := Create("IPCDispatch");
      return Ok((log.value, debug.value, ipc.value));
    }
  }
}
