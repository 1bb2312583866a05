/** The dispatcher and its cache as the objects they are: methods that update fields in place, each
    proved to compute the function of LaunchModel on the state it found. */
module LaunchDispatcher {
  import opened Options
  import opened LaunchModel

  /** The cache directory of one function: its index and its marker file. */
  class CacheDirectory {
    var entries: map<IndexKey, Kernel>
    var marker: bool

    ghost function State(): Disk reads this { Disk(entries, marker) }
  }

  class CUDACache {
    const directory: CacheDirectory
    var launchConfigKey: CacheKey
    var sensitiveFlag: Option<bool>

    constructor (directory: CacheDirectory)
      ensures this.directory == directory && State() == CacheMemory(Plain, None)
    {
      this.directory := directory;
      launchConfigKey := Plain;
      sensitiveFlag := None;
    }

    ghost function State(): CacheMemory reads this { CacheMemory(launchConfigKey, sensitiveFlag) }

    method SetLaunchConfigKey(key: CacheKey)
      modifies this
      ensures State() == old(State()).(key := key)
    {
      launchConfigKey := key;
    }

    method IsLaunchConfigSensitive() returns (sensitive: bool)
      modifies this
      ensures sensitive == HasMarker(old(State()), directory.State())
      ensures State() == AskMarker(old(State()), directory.State())
    {
      if sensitiveFlag.None? {
        sensitiveFlag := Some(directory.marker);
      }
      sensitive := sensitiveFlag.value;
    }

    /** `writable` tells whether the marker file can be opened for appending. */
    method MarkLaunchConfigSensitive(writable: bool) returns (recorded: bool)
      modifies this, directory
      ensures (State(), directory.State()) == MarkCache(old(State()), old(directory.State()), writable)
      ensures recorded <==> State().flag == Some(true)
    {
      if sensitiveFlag == Some(true) {
        return true;
      }
      if !writable {
        sensitiveFlag := Some(false);
        return false;
      }
      directory.marker := true;
      sensitiveFlag := Some(true);
      return true;
    }

    method Flush()
      modifies this, directory
      ensures State() == old(State()).(flag := None) && directory.State() == Disk(map[], false)
    {
      directory.entries := map[];
      directory.marker := false;
      sensitiveFlag := None;
    }

    method LoadOverload(sig: Signature) returns (kernel: Option<Kernel>)
      ensures var at := IndexKey(sig, launchConfigKey);
        kernel == if at in directory.entries then Some(directory.entries[at]) else None
    {
      var at := IndexKey(sig, launchConfigKey);
      kernel := if at in directory.entries then Some(directory.entries[at]) else None;
    }

    method SaveOverload(sig: Signature, kernel: Kernel)
      modifies directory
      ensures directory.entries == old(directory.entries)[IndexKey(sig, launchConfigKey) := kernel]
      ensures directory.marker == old(directory.marker)
    {
      directory.entries := directory.entries[IndexKey(sig, launchConfigKey) := kernel];
    }
  }

  class CUDADispatcher {
    const directory: CacheDirectory
    var overloads: map<Signature, Kernel>
    var order: seq<Signature>
    var sensitive: bool
    var defaultKey: Option<LaunchKey>
    var specializationKey: Option<LaunchKey>  // None: not a specialization
    var specializations: map<LaunchKey, CUDADispatcher>
    var cache: CUDACache?                     // null: the null cache
    var canCompile: bool
    ghost var Repr: set<object>

    /** One dispatcher without regard to its specializations. */
    ghost predicate ValidNode()
      reads this, Repr
    {
      && this in Repr && directory !in Repr
      && (cache != null ==> cache in Repr && cache.directory == directory)
    }

    ghost predicate ValidSpecialization()
      reads this, Repr
    {
      ValidNode() && specializations == map[]
    }

    ghost predicate Valid()
      reads this, Repr
    {
      && ValidNode()
      && (forall k <- specializations ::
            var child := specializations[k];
            && child in Repr && child.Repr <= Repr
            && this !in child.Repr && (cache != null ==> cache !in child.Repr)
            && child.directory == directory
            && child.ValidSpecialization())
      && (forall j, k :: j in specializations && k in specializations && j != k ==>
            specializations[j].Repr !! specializations[k].Repr)
    }

    ghost function CacheSet(): set<object>
      reads this
    {
      if cache == null then {} else {cache}
    }

    ghost function NodeState(): Node
      reads this, CacheSet()
    {
      Node(overloads, order, sensitive, defaultKey, specializationKey,
           if cache == null then None else Some(cache.State()), canCompile)
    }

    ghost function State(): Dispatcher
      requires Valid()
      reads this, Repr
    {
      Dispatcher(NodeState(), Children())
    }

    constructor (directory: CacheDirectory, caching: bool)
      ensures Valid() && ValidSpecialization() && fresh(Repr) && this.directory == directory
      ensures State() == Dispatcher(FreshNode(caching), map[])
    {
      this.directory := directory;
      overloads, order, specializations := map[], [], map[];
      sensitive, defaultKey, specializationKey, canCompile := false, None, None, true;
      cache := null;
      new;
      Repr := {this};
      if caching {
        cache := new CUDACache(directory);
        Repr := {this, cache};
      }
    }

    method CacheLaunchConfigKey(active: Option<LaunchKey>) returns (key: CacheKey)
      ensures key == CacheKeyFor(NodeState(), active)
    {
      if specializationKey.Some? { return Keyed(specializationKey.value); }
      if active.None? { return NoLaunchConfig; }
      if defaultKey.Some? { return Keyed(defaultKey.value); }
      return Keyed(active.value);
    }

    method ConfigureCacheForLaunchConfig(active: Option<LaunchKey>)
      requires ValidNode()
      modifies CacheSet()
      ensures ValidNode() && NodeState() == ConfigureCache(old(NodeState()), directory.State(), active)
    {
      if cache == null { return; }
      if sensitive || specializationKey.Some? {
        var key := CacheLaunchConfigKey(active);
        cache.SetLaunchConfigKey(key);
        return;
      }
      var marked := cache.IsLaunchConfigSensitive();
      if marked {
        cache.SetLaunchConfigKey(if active.None? then NoLaunchConfig else Keyed(active.value));
        return;
      }
      cache.SetLaunchConfigKey(Plain);
    }

    /** The re-keying and marking that precede the compilation of a sensitive kernel. */
    method KeyAndMarkCache(active: Option<LaunchKey>, writable: bool)
      requires ValidNode() && cache != null
      modifies this`cache, cache, directory
      ensures ValidNode() && (cache == null || cache == old(cache))
      ensures (NodeState(), directory.State()) == KeyAndMark(old(NodeState()), old(directory.State()), active, writable)
    {
      var key := CacheLaunchConfigKey(active);
      cache.SetLaunchConfigKey(key);
      var recorded := cache.MarkLaunchConfigSensitive(writable);
      if !recorded {
        cache := null;
      }
    }

    method AddKernel(sig: Signature, kernel: Kernel)
      requires ValidNode()
      modifies this`overloads, this`order
      ensures ValidNode() && NodeState() == AddOverload(old(NodeState()), sig, kernel)
    {
      order := if sig in overloads then order else order + [sig];
      overloads := overloads[sig := kernel];
    }

    /** What follows a miss: run the compiler, key and mark the cache for a sensitive kernel, save. */
    method BuildKernel(sig: Signature, active: Option<LaunchKey>, env: Environment) returns (kernel: Option<Kernel>)
      requires ValidNode()
      modifies this`overloads, this`order, this`cache, CacheSet(), directory
      ensures ValidNode() && (cache == null || cache == old(cache))
      ensures Result(kernel, NodeState(), directory.State()) ==
        Build(old(NodeState()), old(directory.State()), sig, active, env)
    {
      if !canCompile { return None; }
      if env.outcome.Raises? || (env.outcome.marks && active.None?) { return None; }
      var built := Kernel(sig, env.outcome.marks, active, env.outcome.build);
      if cache != null && built.sensitive {
        KeyAndMarkCache(active, env.markerWritable);
      }
      if cache != null {
        cache.SaveOverload(sig, built);
      }
      AddKernel(sig, built);
      kernel := Some(built);
    }

    method Compile(sig: Signature, active: Option<LaunchKey>, env: Environment) returns (kernel: Option<Kernel>)
      requires ValidNode()
      modifies this`overloads, this`order, this`cache, CacheSet(), directory
      ensures ValidNode() && (cache == null || cache == old(cache))
      ensures Result(kernel, NodeState(), directory.State()) ==
        CompileNode(old(NodeState()), old(directory.State()), sig, active, env)
    {
      if sig in overloads { return Some(overloads[sig]); }
      ConfigureCacheForLaunchConfig(active);
      kernel := None;
      if cache != null {
        kernel := cache.LoadOverload(sig);
      }
      if kernel.Some? && kernel.value.sensitive {
        var marked := cache.IsLaunchConfigSensitive();
        if !marked {
          KeyAndMarkCache(active, env.markerWritable);
          kernel := None;
        } else {
          var key := CacheLaunchConfigKey(active);
          cache.SetLaunchConfigKey(key);
        }
      }
      if kernel.Some? {
        AddKernel(sig, kernel.value);
      } else {
        kernel := BuildKernel(sig, active, env);
      }
    }

    static method NewSpecialization(directory: CacheDirectory, key: LaunchKey, caching: bool)
      returns (child: CUDADispatcher)
      ensures child.ValidSpecialization() && fresh(child) && fresh(child.Repr) && child.directory == directory
      ensures child.NodeState() == ChildNode(key, caching)
    {
      child := new CUDADispatcher(directory, caching);
      child.sensitive := true;
      child.specializationKey := Some(key);
      child.defaultKey := Some(key);
      if child.cache != null {
        child.ConfigureCacheForLaunchConfig(None);
      }
    }

    ghost function Children(): map<LaunchKey, Node>
      requires Valid()
      reads this, Repr
    {
      map k | k in specializations :: specializations[k].NodeState()
    }

    /** A specialization none of whose objects changed is in the state it was in. */
    twostate lemma SpecializationStays(k: LaunchKey)
      requires old(Valid()) && k in old(specializations)
      requires forall o <- old(specializations[k].Repr) :: unchanged(o)
      ensures var child := old(specializations[k]);
        child.ValidSpecialization() && child.Repr == old(child.Repr) && child.NodeState() == old(child.NodeState())
    {
      var child := old(specializations[k]);
      assert child in old(child.Repr) && old(child.CacheSet()) <= old(child.Repr);
    }

    /** Changes to this object and its cache alone leave the specializations as they were. */
    twostate lemma SpecializationsStay()
      requires old(Valid()) && ValidNode()
      requires specializations == old(specializations) && Repr == old(Repr) && (cache == null || cache == old(cache))
      requires forall o <- Repr :: o == this || o == old(cache) || unchanged(o)
      ensures Valid() && Children() == old(Children())
    {
      forall k | k in specializations
        ensures specializations[k].ValidSpecialization() && specializations[k].Repr == old(specializations[k].Repr)
        ensures specializations[k].NodeState() == old(specializations[k].NodeState())
      {
        SpecializationStays(k);
      }
    }

    twostate lemma OldOnesStay()
      requires old(Valid()) && forall o <- old(Repr) :: o == this || unchanged(o)
      ensures forall k <- old(specializations) ::
        old(specializations[k]).NodeState() == old(specializations[k].NodeState())
    {
      forall k | k in old(specializations)
        ensures old(specializations[k]).NodeState() == old(specializations[k].NodeState())
      {
        SpecializationStays(k);
      }
    }

    method Adopt(key: LaunchKey, child: CUDADispatcher)
      requires Valid() && key !in specializations
      requires child.ValidSpecialization() && child.directory == directory && child.Repr !! Repr
      modifies this`specializations, this`Repr
      ensures Valid() && Repr == old(Repr) + child.Repr
      ensures specializations == old(specializations)[key := child]
      ensures Children() == old(Children())[key := child.NodeState()]
    {
      specializations := specializations[key := child];
      Repr := Repr + child.Repr;
      OldOnesStay();
    }

    method CreateLaunchConfigSpecialization(key: LaunchKey) returns (child: CUDADispatcher)
      requires Valid() && key !in specializations
      modifies this`specializations, this`Repr
      ensures Valid() && fresh(Repr - old(Repr))
      ensures specializations == old(specializations)[key := child]
      ensures Children() == old(Children())[key := ChildNode(key, cache != null)]
    {
      child := NewSpecialization(directory, key, cache != null);
      Adopt(key, child);
    }

    method GetLaunchConfigSpecialization(key: LaunchKey) returns (child: CUDADispatcher)
      requires Valid()
      modifies this`specializations, this`Repr
      ensures Valid() && fresh(Repr - old(Repr))
      ensures specializations == old(specializations)[key := child]
      ensures Children() == old(Children())[key := ChildFor(old(State()), key)]
    {
      if key in specializations {
        child := specializations[key];
        assert specializations == specializations[key := child];
      } else {
        child := CreateLaunchConfigSpecialization(key);
      }
    }

    method UpdateLaunchConfigSensitivity(kernel: Kernel, key: LaunchKey)
      requires ValidNode()
      modifies this`sensitive, this`defaultKey
      ensures ValidNode() && NodeState() == UpdateSensitivity(old(NodeState()), kernel, key)
    {
      if !kernel.sensitive { return; }
      sensitive := true;
      if defaultKey.None? {
        defaultKey := Some(key);
      }
    }

    /** The part of a call after this dispatcher was selected. `resolved` is the answer of the type
        resolver; the kernel returned is launched. */
    method CallSelected(sig: Signature, key: LaunchKey, resolved: Option<Signature>, env: Environment)
      returns (kernel: Option<Kernel>)
      requires ValidNode()
      modifies this`overloads, this`order, this`cache, this`sensitive, this`defaultKey, CacheSet(), directory
      ensures ValidNode() && (cache == null || cache == old(cache))
      ensures Result(kernel, NodeState(), directory.State())
        == CallNode(old(NodeState()), old(directory.State()), sig, key, resolved, env)
    {
      if resolved.Some? && resolved.value in overloads {
        kernel := Some(overloads[resolved.value]);
      } else if canCompile {
        kernel := Compile(sig, Some(key), env);
      } else {
        return None;
      }
      if kernel.Some? {
        UpdateLaunchConfigSensitivity(kernel.value, key);
      }
    }

    method PinDefaultKey(key: LaunchKey)
      requires Valid()
      modifies this`defaultKey
      ensures Valid() && defaultKey == Some(key) && Children() == old(Children())
    {
      defaultKey := Some(key);
      SpecializationsStay();
    }

    method SelectLaunchConfigDispatcher(key: LaunchKey) returns (selected: CUDADispatcher)
      requires Valid()
      modifies this`specializations, this`Repr, this`defaultKey
      ensures Valid() && fresh(Repr - old(Repr)) && cache == old(cache)
      ensures Route(old(NodeState()), key).None? ==>
        selected == this && NodeState() == PinDefault(old(NodeState()), key) && Children() == old(Children())
      ensures Route(old(NodeState()), key).Some? ==>
        && key in specializations && selected == specializations[key]
        && NodeState() == old(NodeState()) && Children() == old(Children())[key := ChildFor(old(State()), key)]
    {
      if !sensitive || specializationKey.Some? { return this; }
      if defaultKey.None? {
        PinDefaultKey(key);
        return this;
      }
      if defaultKey == Some(key) { return this; }
      selected := GetLaunchConfigSpecialization(key);
    }

    /** The dispatcher serves the launch itself; its specializations stay put. */
    method CallOwn(sig: Signature, key: LaunchKey, resolved: Option<Signature>, env: Environment)
      returns (launched: Option<Kernel>)
      requires Valid()
      modifies this`overloads, this`order, this`cache, this`sensitive, this`defaultKey, CacheSet(), directory
      ensures Valid() && Children() == old(Children())
      ensures Result(launched, NodeState(), directory.State())
        == CallNode(old(NodeState()), old(directory.State()), sig, key, resolved, env)
    {
      launched := CallSelected(sig, key, resolved, env);
      SpecializationsStay();
    }

    /** Changes to the objects of one specialization leave everything else as it was. */
    twostate lemma OthersStay(key: LaunchKey)
      requires old(Valid()) && key in old(specializations)
      requires forall o <- old(Repr) :: o in old(specializations[key].Repr) || unchanged(o)
      requires old(specializations[key]).ValidSpecialization()
      requires old(specializations[key]).Repr == old(specializations[key].Repr)
      ensures unchanged(this) && Valid() && NodeState() == old(NodeState())
      ensures Children() == old(Children())[key := specializations[key].NodeState()]
    {
      assert old(CacheSet()) !! old(specializations[key].Repr) && old(CacheSet()) <= old(Repr);
      forall k | k in specializations && k != key
        ensures specializations[k].ValidSpecialization() && specializations[k].Repr == old(specializations[k].Repr)
        ensures specializations[k].NodeState() == old(specializations[k].NodeState())
      {
        SpecializationStays(k);
      }
    }

    /** A specialization serves the launch; the dispatcher and its other specializations stay put. */
    method CallSpecialization(sig: Signature, key: LaunchKey, resolved: Option<Signature>, env: Environment)
      returns (launched: Option<Kernel>)
      requires Valid() && key in specializations
      modifies specializations[key], specializations[key].CacheSet(), directory
      ensures unchanged(this) && Valid() && NodeState() == old(NodeState())
      ensures Children() == old(Children())[key := specializations[key].NodeState()]
      ensures Result(launched, specializations[key].NodeState(), directory.State())
        == CallNode(old(specializations[key].NodeState()), old(directory.State()), sig, key, resolved, env)
    {
      var child := specializations[key];
      assert child.CacheSet() <= child.Repr;
      launched := child.CallSelected(sig, key, resolved, env);
      OthersStay(key);
    }

    /** Compile if necessary and launch: the kernel returned is the one launched. */
    method Call(sig: Signature, config: LaunchConfig, resolved: Option<Signature>, env: Environment)
      returns (launched: Option<Kernel>)
      requires Valid()
      modifies Repr, directory
      ensures Valid() && fresh(Repr - old(Repr))
      ensures CallResult(launched, State(), directory.State())
        == CallDispatcher(old(State()), old(directory.State()), sig, KeyOf(config), resolved, env)
    {
      var key := KeyOf(config);
      var selected := SelectLaunchConfigDispatcher(key);
      ghost var node: Node;
      if selected == this {
        assert Route(old(NodeState()), key).None?;
        launched := CallOwn(sig, key, resolved, env);
        node := NodeState();
      } else {
        assert specializations[key].NodeState() == Children()[key] == ChildFor(old(State()), key);
        launched := CallSpecialization(sig, key, resolved, env);
        node := specializations[key].NodeState();
      }
      SelectedCall(old(State()), old(directory.State()), sig, key, resolved, env,
        Result(launched, node, directory.State()));
    }

    /** Compile the signatures in turn, stopping at the first exception; `completed` is false then. */
    method CompileEach(sigs: seq<Signature>, envs: seq<Environment>) returns (completed: bool)
      requires ValidNode() && |envs| == |sigs|
      modifies this`overloads, this`order, this`cache, CacheSet(), directory
      ensures ValidNode() && (cache == null || cache == old(cache))
      ensures (NodeState(), directory.State()) == CompileAll(old(NodeState()), old(directory.State()), sigs, envs)
    {
      completed := true;
      ghost var target := CompileAll(NodeState(), directory.State(), sigs, envs);
      ghost var restSigs, restEnvs := sigs, envs;
      var i := 0;
      while i < |sigs| && completed
        invariant 0 <= i <= |sigs| && restSigs == sigs[i..] && restEnvs == envs[i..]
        invariant ValidNode() && (cache == null || cache == old(cache))
        invariant target == if completed then CompileAll(NodeState(), directory.State(), restSigs, restEnvs)
                            else (NodeState(), directory.State())
      {
        var kernel := Compile(sigs[i], None, envs[i]);
        completed := kernel.Some?;
        restSigs, restEnvs := restSigs[1..], restEnvs[1..];
        i := i + 1;
      }
    }

    /** Compile every signature afresh. Only this dispatcher's own overloads take part: its
        specializations keep theirs. */
    method Recompile(envs: seq<Environment>) returns (completed: bool)
      requires Valid() && |envs| == |order|
      modifies this`overloads, this`order, this`cache, this`canCompile, CacheSet(), directory
      ensures Valid() && Children() == old(Children())
      ensures (NodeState(), directory.State()) == RecompileNode(old(NodeState()), old(directory.State()), envs)
    {
      var sigs, oldCanCompile := order, canCompile;
      overloads, order := map[], [];
      if cache != null {
        cache.Flush();
      }
      canCompile := true;
      completed := CompileEach(sigs, envs);
      canCompile := oldCanCompile;
      SpecializationsStay();
    }
  }
}
