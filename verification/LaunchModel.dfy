/** Launch-config-sensitive dispatch and its disk cache, on values.

    A dispatcher is a node (its own overloads, sensitivity and cache object) together with one child
    node per further launch key. Every operation is a function from the node and the disk to the node
    and the disk it leaves behind; the class in LaunchDispatcher.dfy is proved to compute these
    functions, and LaunchRuns.dfy proves what they keep over whole runs. */
module LaunchModel {
  import opened Options

  datatype Dim3 = Dim3(x: nat, y: nat, z: nat)

  datatype LaunchConfig = LaunchConfig(griddim: Dim3, blockdim: Dim3, stream: nat, sharedmem: nat)

  /** What a launch-config-sensitive kernel may depend on: everything but the stream. */
  datatype LaunchKey = LaunchKey(griddim: Dim3, blockdim: Dim3, sharedmem: nat)

  function KeyOf(config: LaunchConfig): LaunchKey {
    LaunchKey(config.griddim, config.blockdim, config.sharedmem)
  }

  datatype Signature = Signature(argtypes: seq<string>)

  /** `compiledUnder` is the launch key that was active while the kernel was compiled, `build` the run of
      the compiler it came from. */
  datatype Kernel = Kernel(sig: Signature, sensitive: bool, compiledUnder: Option<LaunchKey>, build: nat)

  /** The launch-config part of an index key: absent, the no-launch constant, or a launch key. */
  datatype CacheKey = Plain | NoLaunchConfig | Keyed(key: LaunchKey)

  datatype IndexKey = IndexKey(sig: Signature, cacheKey: CacheKey)

  /** The index of the cache directory and the presence of its marker file. */
  datatype Disk = Disk(entries: map<IndexKey, Kernel>, marker: bool)

  /** A cache object in memory: its current key and what it remembers of the marker file. */
  datatype CacheMemory = CacheMemory(key: CacheKey, flag: Option<bool>)

  datatype Node = Node(
    overloads: map<Signature, Kernel>,
    order: seq<Signature>,
    sensitive: bool,
    defaultKey: Option<LaunchKey>,
    specializationKey: Option<LaunchKey>,
    cache: Option<CacheMemory>,
    canCompile: bool)

  datatype Dispatcher = Dispatcher(own: Node, children: map<LaunchKey, Node>)

  /** What the world does during one compilation: the compiler raises, or builds a kernel and does
      or does not mark it; and the marker file can or cannot be written. */
  datatype CompileOutcome = Raises | Builds(marks: bool, build: nat)
  datatype Environment = Environment(outcome: CompileOutcome, markerWritable: bool)

  /** `kernel` is None when an exception left the operation. */
  datatype Result = Result(kernel: Option<Kernel>, node: Node, disk: Disk)

  // ----- the cache object -----

  function HasMarker(cache: CacheMemory, disk: Disk): bool {
    if cache.flag.Some? then cache.flag.value else disk.marker
  }

  /** Asking for the marker remembers the answer. */
  function AskMarker(cache: CacheMemory, disk: Disk): CacheMemory {
    cache.(flag := Some(HasMarker(cache, disk)))
  }

  function MarkCache(cache: CacheMemory, disk: Disk, writable: bool): (CacheMemory, Disk) {
    if cache.flag == Some(true) then (cache, disk)
    else if writable then (cache.(flag := Some(true)), disk.(marker := true))
    else (cache.(flag := Some(false)), disk)
  }

  // ----- one node -----

  function CacheKeyFor(n: Node, active: Option<LaunchKey>): CacheKey {
    if n.specializationKey.Some? then Keyed(n.specializationKey.value)
    else if active.None? then NoLaunchConfig
    else if n.defaultKey.Some? then Keyed(n.defaultKey.value)
    else Keyed(active.value)
  }

  function ConfigureCache(n: Node, disk: Disk, active: Option<LaunchKey>): Node {
    if n.cache.None? then n
    else if n.sensitive || n.specializationKey.Some? then
      n.(cache := Some(n.cache.value.(key := CacheKeyFor(n, active))))
    else
      var asked := AskMarker(n.cache.value, disk);
      var key := if !asked.flag.value then Plain else if active.None? then NoLaunchConfig else Keyed(active.value);
      n.(cache := Some(asked.(key := key)))
  }

  /** Re-key the cache for a sensitive kernel and record the marker; a cache whose marker cannot be
      recorded is given up. */
  function KeyAndMark(n: Node, disk: Disk, active: Option<LaunchKey>, writable: bool): (Node, Disk)
    requires n.cache.Some?
  {
    var (cache, disk') := MarkCache(n.cache.value.(key := CacheKeyFor(n, active)), disk, writable);
    if cache.flag == Some(true) then (n.(cache := Some(cache)), disk') else (n.(cache := None), disk')
  }

  function Lookup(n: Node, disk: Disk, sig: Signature): Option<Kernel> {
    if n.cache.None? then None
    else
      var at := IndexKey(sig, n.cache.value.key);
      if at in disk.entries then Some(disk.entries[at]) else None
  }

  function Save(n: Node, disk: Disk, sig: Signature, kernel: Kernel): Disk {
    if n.cache.None? then disk
    else disk.(entries := disk.entries[IndexKey(sig, n.cache.value.key) := kernel])
  }

  function AddOverload(n: Node, sig: Signature, kernel: Kernel): Node {
    n.(overloads := n.overloads[sig := kernel],
       order := if sig in n.overloads then n.order else n.order + [sig])
  }

  /** Marking needs an active launch configuration, so outside a launch it raises. */
  predicate CompilerRaises(n: Node, active: Option<LaunchKey>, env: Environment) {
    !n.canCompile || env.outcome.Raises? || (env.outcome.marks && active.None?)
  }

  function Build(n: Node, disk: Disk, sig: Signature, active: Option<LaunchKey>, env: Environment): Result {
    if CompilerRaises(n, active, env) then Result(None, n, disk)
    else
      var kernel := Kernel(sig, env.outcome.marks, active, env.outcome.build);
      var (n', disk') :=
        if n.cache.Some? && kernel.sensitive then KeyAndMark(n, disk, active, env.markerWritable) else (n, disk);
      Result(Some(kernel), AddOverload(n', sig, kernel), Save(n', disk', sig, kernel))
  }

  function CompileNode(n: Node, disk: Disk, sig: Signature, active: Option<LaunchKey>, env: Environment): Result {
    if sig in n.overloads then Result(Some(n.overloads[sig]), n, disk)
    else
      var n1 := ConfigureCache(n, disk, active);
      var found := Lookup(n1, disk, sig);
      if found.None? then Build(n1, disk, sig, active, env)
      else if !found.value.sensitive then Result(found, AddOverload(n1, sig, found.value), disk)
      else
        var n2 := n1.(cache := Some(AskMarker(n1.cache.value, disk)));
        if HasMarker(n1.cache.value, disk) then
          var n3 := n2.(cache := Some(n2.cache.value.(key := CacheKeyFor(n2, active))));
          Result(found, AddOverload(n3, sig, found.value), disk)
        else
          var (n3, disk3) := KeyAndMark(n2, disk, active, env.markerWritable);
          Build(n3, disk3, sig, active, env)
  }

  function UpdateSensitivity(n: Node, kernel: Kernel, key: LaunchKey): Node {
    if !kernel.sensitive then n
    else n.(sensitive := true, defaultKey := if n.defaultKey.None? then Some(key) else n.defaultKey)
  }

  /** The type resolver answers with an existing overload, or asks for a compilation under the active
      launch configuration. */
  function ResolveKernel(
    n: Node, disk: Disk, sig: Signature, key: LaunchKey, resolved: Option<Signature>, env: Environment): Result
  {
    if resolved.Some? && resolved.value in n.overloads then Result(Some(n.overloads[resolved.value]), n, disk)
    else if !n.canCompile then Result(None, n, disk)
    else CompileNode(n, disk, sig, Some(key), env)
  }

  function CallNode(
    n: Node, disk: Disk, sig: Signature, key: LaunchKey, resolved: Option<Signature>, env: Environment): Result
  {
    var r := ResolveKernel(n, disk, sig, key, resolved, env);
    if r.kernel.None? then r else r.(node := UpdateSensitivity(r.node, r.kernel.value, key))
  }

  function CompileAll(n: Node, disk: Disk, sigs: seq<Signature>, envs: seq<Environment>): (Node, Disk)
    requires |sigs| == |envs|
    decreases |sigs|
  {
    if sigs == [] then (n, disk)
    else
      var r := CompileNode(n, disk, sigs[0], None, envs[0]);
      if r.kernel.None? then (r.node, r.disk) else CompileAll(r.node, r.disk, sigs[1..], envs[1..])
  }

  function FlushedCache(cache: Option<CacheMemory>): Option<CacheMemory> {
    if cache.None? then None else Some(cache.value.(flag := None))
  }

  function FlushedDisk(cache: Option<CacheMemory>, disk: Disk): Disk {
    if cache.None? then disk else Disk(map[], false)
  }

  /** Recompiling happens outside any launch, so no launch configuration is active. */
  function RecompileNode(n: Node, disk: Disk, envs: seq<Environment>): (Node, Disk)
    requires |envs| == |n.order|
  {
    var cleared := n.(overloads := map[], order := [], cache := FlushedCache(n.cache), canCompile := true);
    var (n', disk') := CompileAll(cleared, FlushedDisk(n.cache, disk), n.order, envs);
    (n'.(canCompile := n.canCompile), disk')
  }

  // ----- a dispatcher with its children -----

  function FreshNode(caching: bool): Node {
    Node(map[], [], false, None, None, if caching then Some(CacheMemory(Plain, None)) else None, true)
  }

  function ChildNode(key: LaunchKey, caching: bool): Node {
    Node(map[], [], true, Some(key), Some(key), if caching then Some(CacheMemory(Keyed(key), None)) else None, true)
  }

  /** The launch key of the child a launch is routed to; None when the dispatcher keeps the launch. */
  function Route(own: Node, key: LaunchKey): Option<LaunchKey> {
    if !own.sensitive || own.specializationKey.Some? || own.defaultKey.None? || own.defaultKey == Some(key) then None
    else Some(key)
  }

  /** A sensitive dispatcher without a default key takes the key of this launch. */
  function PinDefault(own: Node, key: LaunchKey): Node {
    if own.sensitive && own.specializationKey.None? && own.defaultKey.None? then own.(defaultKey := Some(key)) else own
  }

  function ChildFor(d: Dispatcher, key: LaunchKey): Node {
    if key in d.children then d.children[key] else ChildNode(key, d.own.cache.Some?)
  }

  datatype CallResult = CallResult(launched: Option<Kernel>, dispatcher: Dispatcher, disk: Disk)

  function CallDispatcher(
    d: Dispatcher, disk: Disk, sig: Signature, key: LaunchKey, resolved: Option<Signature>, env: Environment)
    : CallResult
  {
    if Route(d.own, key).Some? then
      var r := CallNode(ChildFor(d, key), disk, sig, key, resolved, env);
      CallResult(r.kernel, d.(children := d.children[key := r.node]), r.disk)
    else
      var r := CallNode(PinDefault(d.own, key), disk, sig, key, resolved, env);
      CallResult(r.kernel, d.(own := r.node), r.disk)
  }

  /** A call is the selected node's call, put back in its place. */
  lemma SelectedCall(
    d: Dispatcher, disk: Disk, sig: Signature, key: LaunchKey, resolved: Option<Signature>, env: Environment,
    r: Result)
    requires var selected := if Route(d.own, key).Some? then ChildFor(d, key) else PinDefault(d.own, key);
      r == CallNode(selected, disk, sig, key, resolved, env)
    ensures Route(d.own, key).Some? ==>
      CallDispatcher(d, disk, sig, key, resolved, env)
      == CallResult(r.kernel, Dispatcher(d.own, d.children[key := ChildFor(d, key)][key := r.node]), r.disk)
    ensures Route(d.own, key).None? ==>
      CallDispatcher(d, disk, sig, key, resolved, env) == CallResult(r.kernel, Dispatcher(r.node, d.children), r.disk)
  {
    assert d.children[key := ChildFor(d, key)][key := r.node] == d.children[key := r.node];
  }
}
