/** Code libraries that link to one another, and the lists collected by walking the links. */
module LinkGraph {
  import opened Options

  type IrModule = int
  type File = string

  datatype Outcome = Done | AlreadyFinalized | NotSupported | MissingModule

  /** A compiled library or, when `external`, a wrapper of code that is not compiled here. */
  class CodeLibrary {
    const external: bool
    var irModule: Option<IrModule>
    var linked: set<CodeLibrary>
    var files: set<File>
    var finalized: bool
    ghost var order: nat  // when it was finalized

    constructor (external: bool)
      ensures this.external == external && irModule == None && linked == {} && files == {} && !finalized
    {
      this.external := external;
      irModule, linked, files, finalized, order := None, {}, {}, false, 0;
    }

    /** Above the finalization order of everything this library links to. */
    ghost function Height(clock: nat): nat
      reads this
    {
      if finalized then order else clock
    }

    /** Every function of the modules linked to is visited, which fails at a library that has no module. */
    method Finalize(ghost libs: set<CodeLibrary>, ghost clock: nat) returns (r: Outcome, ghost next: nat)
      requires this in libs && Universe(libs, clock)
      modifies this
      ensures Universe(libs, next)
      ensures r ==
        if old(finalized) then AlreadyFinalized
        else if old(MissesModule(this, libs, clock)) then MissingModule
        else Done
      ensures linked == old(linked) && files == old(files) && irModule == old(irModule)
      ensures r != Done ==> finalized == old(finalized) && order == old(order) && next == clock
      ensures r == Done ==> finalized && order == clock && next == clock + 1
      ensures old(FilesReachUsers(libs)) ==> FilesReachUsers(libs)
      ensures old(ModulesPresent(libs)) ==> ModulesPresent(libs)
    {
      if finalized {
        return AlreadyFinalized, clock;
      }
      var missing := LinkedMissModule(libs, clock);
      if missing {
        return MissingModule, clock;
      }
      LinkedHaveModules(this, libs, clock);
      finalized, order := true, clock;
      return Done, clock + 1;
    }

    /** The walk over the modules of everything linked to. */
    method LinkedMissModule(ghost libs: set<CodeLibrary>, ghost clock: nat) returns (missing: bool)
      requires this in libs && Universe(libs, clock)
      ensures missing <==> MissesModule(this, libs, clock)
    {
      LinkFacts(this, libs, clock);
      NoneMissingYet(libs, clock);
      hide Universe, Below, Cover, ModulesOf, NoneMissing, MissesModule;
      var rest := linked;
      ghost var walked: set<CodeLibrary> := {};
      while rest != {}
        invariant walked + rest == linked
        invariant NoneMissing(walked, libs, clock)
        decreases rest
      {
        var lib :| lib in rest;
        missing := MissesFrom(lib, walked, libs, clock);
        if missing {
          return true;
        }
        rest, walked := rest - {lib}, walked + {lib};
      }
      assert walked == linked;
      NoneMissingAtAll(this, libs, clock);
      return false;
    }

    method MissesFrom(lib: CodeLibrary, ghost walked: set<CodeLibrary>, ghost libs: set<CodeLibrary>,
                      ghost clock: nat) returns (missing: bool)
      requires this in libs && lib in linked && lib in libs && walked <= libs && Universe(libs, clock)
      requires NoneMissing(walked, libs, clock)
      ensures if missing then MissesModule(this, libs, clock) else NoneMissing(walked + {lib}, libs, clock)
    {
      hide Universe, Below, Cover, ModulesOf, NoneMissing, MissesModule, Members, Bag;
      var mods := lib.Modules(libs, clock);
      if None in mods {
        MissingBelow(this, lib, mods, libs, clock);
        return true;
      }
      NoneMissingGrows(walked, lib, mods, libs, clock);
      return false;
    }

    method AddIrModule(m: IrModule, ghost libs: set<CodeLibrary>, ghost clock: nat) returns (r: Outcome, twice: bool)
      requires this in libs && Universe(libs, clock)
      modifies this
      ensures Universe(libs, clock) && linked == old(linked) && files == old(files)
      ensures finalized == old(finalized) && order == old(order)
      ensures r == if external then NotSupported else if finalized then AlreadyFinalized else Done
      ensures twice <==> r == Done && old(irModule).Some?
      ensures irModule == if r == Done && !twice then Some(m) else old(irModule)
      ensures old(ModulesPresent(libs)) ==> ModulesPresent(libs)
    {
      if external {
        return NotSupported, false;
      }
      if finalized {
        return AlreadyFinalized, false;
      }
      if irModule.Some? {
        return Done, true;
      }
      irModule := Some(m);
      return Done, false;
    }

    /** The other library is finalized first, even when this one then refuses the link; if that fails there is
        no link. */
    method AddLinkingLibrary(library: CodeLibrary, ghost libs: set<CodeLibrary>, ghost clock: nat)
        returns (r: Outcome, ghost next: nat)
      requires this in libs && library in libs && Universe(libs, clock)
      modifies this, library
      ensures Universe(libs, next)
      ensures r ==
        if external then NotSupported
        else if old(!library.finalized && MissesModule(library, libs, clock)) then MissingModule
        else if old(finalized) || library == this then AlreadyFinalized
        else Done
      ensures r in {NotSupported, MissingModule} ==>
        finalized == old(finalized) && library.finalized == old(library.finalized)
      ensures r !in {NotSupported, MissingModule} ==>
        library.finalized && (library != this ==> finalized == old(finalized))
      ensures linked == old(linked) + if r == Done then {library} else {}
      ensures files == old(files) + if r == Done then old(library.files) else {}
      ensures irModule == old(irModule) && library.irModule == old(library.irModule)
      ensures library != this ==> library.linked == old(library.linked) && library.files == old(library.files)
      ensures old(FilesReachUsers(libs)) ==> FilesReachUsers(libs)
      ensures old(ModulesPresent(libs)) ==> ModulesPresent(libs)
    {
      next := clock;
      hide Universe, FilesReachUsers, MissesModule, ModulesPresent;
      if external {
        return NotSupported, next;
      }
      if !library.finalized {
        var done: Outcome;
        done, next := library.Finalize(libs, clock);
        if done == MissingModule {
          return MissingModule, next;
        }
      }
      if finalized {
        return AlreadyFinalized, next;
      }
      Link(library, libs, next);
      return Done, next;
    }

    method Link(library: CodeLibrary, ghost libs: set<CodeLibrary>, ghost clock: nat)
      requires this in libs && library in libs && Universe(libs, clock)
      requires !external && !finalized && library.finalized
      modifies this`linked, this`files
      ensures Universe(libs, clock)
      ensures linked == old(linked) + {library} && files == old(files) + library.files
      ensures old(FilesReachUsers(libs)) ==> FilesReachUsers(libs)
      ensures old(ModulesPresent(libs)) ==> ModulesPresent(libs)
    {
      linked := linked + {library};
      files := files + library.files;
    }

    /** Only an external library refuses files once it is finalized. Any other can still be given a file
        that libraries linking to it then miss: exactly when one of them does not have the file already. */
    method AddLinkingFile(file: File, ghost libs: set<CodeLibrary>, ghost clock: nat) returns (r: Outcome)
      requires this in libs && Universe(libs, clock)
      modifies this`files
      ensures Universe(libs, clock)
      ensures r == if external && finalized then AlreadyFinalized else Done
      ensures files == old(files) + if r == Done then {file} else {}
      ensures old(FilesReachUsers(libs)) && r == Done ==> FilesReachUsers(libs) == old(UsersHave(this, file, libs))
      ensures old(ModulesPresent(libs)) ==> ModulesPresent(libs)
    {
      if external && finalized {
        return AlreadyFinalized;
      }
      NoSelfLink(this, libs, clock);
      files := files + {file};
      if old(FilesReachUsers(libs)) && FilesReachUsers(libs) {
        forall u | u in libs && this in u.linked ensures file in old(u.files) {
          assert files <= u.files;
        }
      }
      return Done;
    }

    /** This library's module and then, in no particular order, those of everything reachable: as often as
        there are ways over the links to reach it. */
    method Modules(ghost libs: set<CodeLibrary>, ghost clock: nat) returns (mods: seq<Option<IrModule>>)
      requires this in libs && Universe(libs, clock)
      ensures Members(mods) == ModulesOf({this} + Below(this, libs, clock))
      ensures multiset(mods) == Bag(this, libs, clock) && (!external ==> mods != [] && mods[0] == irModule)
      decreases Height(clock), 0
    {
      LinkFacts(this, libs, clock);
      NothingCollected(this, libs, clock);
      hide Universe, Below, Cover, Collected, Members, ModulesOf, Bag;
      if external {
        return [];
      }
      mods := [irModule];
      var rest := linked;
      ghost var walked: set<CodeLibrary> := {};
      while rest != {}
        invariant walked + rest == linked && walked !! rest
        invariant Collected(this, mods, walked, libs, clock)
        decreases rest
      {
        var lib :| lib in rest;
        mods := AppendModules(mods, lib, walked, libs, clock);
        rest, walked := rest - {lib}, walked + {lib};
      }
      assert walked == linked;
      AllCollected(this, mods, libs, clock);
    }

    method AppendModules(mods: seq<Option<IrModule>>, lib: CodeLibrary, ghost walked: set<CodeLibrary>,
                         ghost libs: set<CodeLibrary>, ghost clock: nat) returns (more: seq<Option<IrModule>>)
      requires this in libs && walked + {lib} <= linked <= libs && lib !in walked && Universe(libs, clock)
      requires Collected(this, mods, walked, libs, clock)
      ensures Collected(this, more, walked + {lib}, libs, clock)
      decreases lib.Height(clock), 1
    {
      hide Universe, Below, Cover, Collected, Members, ModulesOf, Bag;
      var inner := lib.Modules(libs, clock);
      CollectedGrows(this, mods, inner, walked, lib, libs, clock);
      return mods + inner;
    }

    /** Everything reachable, each after what it links to; reading the list of an external library fails. */
    method LinkingLibraries(ghost libs: set<CodeLibrary>, ghost clock: nat) returns (r: Option<seq<CodeLibrary>>)
      requires this in libs && Universe(libs, clock)
      ensures r == None <==> exists l :: l in {this} + Below(this, libs, clock) && l.external
      ensures r.Some? ==> Members(r.value) == Below(this, libs, clock) && DependenciesFirst(r.value)
      decreases Height(clock), 0
    {
      LinkFacts(this, libs, clock);
      NothingListed(libs, clock);
      hide Universe, Below, Cover, Listed;
      if external {
        return None;
      }
      var list: seq<CodeLibrary> := [];
      var rest := linked;
      ghost var walked: set<CodeLibrary> := {};
      while rest != {}
        invariant walked + rest == linked
        invariant Listed(list, walked, libs, clock)
        decreases rest
      {
        var lib :| lib in rest;
        var more := AppendLibraries(list, lib, walked, libs, clock);
        if more == None {
          CoverContains(linked, lib, libs, clock);
          return None;
        }
        list := more.value;
        rest, walked := rest - {lib}, walked + {lib};
      }
      assert walked == linked;
      AllListed(this, list, libs, clock);
      return Some(list);
    }

    method AppendLibraries(list: seq<CodeLibrary>, lib: CodeLibrary, ghost walked: set<CodeLibrary>,
                           ghost libs: set<CodeLibrary>, ghost clock: nat) returns (r: Option<seq<CodeLibrary>>)
      requires walked <= libs && lib in libs && Universe(libs, clock)
      requires Listed(list, walked, libs, clock)
      ensures r == None ==> exists l :: l in {lib} + Below(lib, libs, clock) && l.external
      ensures r.Some? ==> Listed(r.value, walked + {lib}, libs, clock)
      decreases lib.Height(clock), 1
    {
      hide Universe, Below, Cover;
      var inner := lib.LinkingLibraries(libs, clock);
      if inner == None {
        return None;
      }
      CoverGrows(walked, lib, libs, clock);
      AppendKeepsOrder(list, inner.value, lib, libs, clock);
      return Some(list + inner.value + [lib]);
    }
  }

  /** The list holds what is reached over some links, none of it external, dependencies first. */
  ghost predicate Listed(list: seq<CodeLibrary>, walked: set<CodeLibrary>, libs: set<CodeLibrary>, clock: nat)
    requires walked <= libs && Universe(libs, clock)
    reads libs, list
  {
    && Members(list) == Cover(walked, libs, clock)
    && (forall l :: l in Cover(walked, libs, clock) ==> !l.external)
    && DependenciesFirst(list)
  }

  lemma NothingListed(libs: set<CodeLibrary>, clock: nat)
    requires Universe(libs, clock)
    ensures Listed([], {}, libs, clock)
  {
  }

  lemma AllListed(user: CodeLibrary, list: seq<CodeLibrary>, libs: set<CodeLibrary>, clock: nat)
    requires user in libs && user.linked <= libs && Universe(libs, clock) && !user.external
    requires Listed(list, user.linked, libs, clock)
    ensures Members(list) == Below(user, libs, clock) && DependenciesFirst(list)
    ensures forall l :: l in {user} + Below(user, libs, clock) ==> !l.external
  {
    LinkFacts(user, libs, clock);
  }

  function Members<T>(list: seq<T>): set<T> {
    set x | x in list
  }

  lemma MembersUnite<T>(a: seq<T>, b: seq<T>)
    ensures Members(a + b) == Members(a) + Members(b)
  {
  }

  ghost function ModulesOf(ls: set<CodeLibrary>): set<Option<IrModule>>
    reads ls
  {
    set l | l in ls && !l.external :: l.irModule
  }

  lemma ModulesUnite(a: set<CodeLibrary>, b: set<CodeLibrary>)
    ensures ModulesOf(a + b) == ModulesOf(a) + ModulesOf(b)
  {
  }

  lemma NoModules()
    ensures ModulesOf({}) == {}
  {
  }

  lemma ModulesOfCover(ds: set<CodeLibrary>, d: CodeLibrary, libs: set<CodeLibrary>, clock: nat)
    requires ds <= libs && d in libs && Universe(libs, clock)
    ensures ModulesOf(Cover(ds + {d}, libs, clock))
      == ModulesOf(Cover(ds, libs, clock)) + ModulesOf({d} + Below(d, libs, clock))
  {
    CoverGrows(ds, d, libs, clock);
    hide Universe, Below, Cover, ModulesOf;
    ModulesUnite(Cover(ds, libs, clock), {d} + Below(d, libs, clock));
    assert Cover(ds, libs, clock) + {d} + Below(d, libs, clock)
        == Cover(ds, libs, clock) + ({d} + Below(d, libs, clock));
  }

  /** The modules found on every way over the links, each as often as there are ways. */
  ghost function Bag(l: CodeLibrary, libs: set<CodeLibrary>, clock: nat): multiset<Option<IrModule>>
    requires l in libs && Universe(libs, clock)
    reads libs
    decreases l.Height(clock), 1
  {
    LinkFacts(l, libs, clock);
    if l.external then multiset{} else multiset{l.irModule} + BagOf(l.linked, libs, clock, l.Height(clock))
  }

  ghost function BagOf(ds: set<CodeLibrary>, libs: set<CodeLibrary>, clock: nat, height: nat)
      : multiset<Option<IrModule>>
    requires ds <= libs && Universe(libs, clock) && forall d :: d in ds ==> d.Height(clock) < height
    reads libs
    decreases height, 0, ds
  {
    if ds == {} then multiset{}
    else
      var d :| d in ds;
      Bag(d, libs, clock) + BagOf(ds - {d}, libs, clock, height)
  }

  /** It does not matter which library is taken first. */
  lemma {:induction false} BagOfMore(ds: set<CodeLibrary>, d: CodeLibrary, libs: set<CodeLibrary>, clock: nat,
                                     height: nat)
    requires ds <= libs && d in libs && Universe(libs, clock)
    requires d.Height(clock) < height && forall e :: e in ds ==> e.Height(clock) < height
    ensures d !in ds ==> BagOf(ds + {d}, libs, clock, height) == Bag(d, libs, clock) + BagOf(ds, libs, clock, height)
    decreases ds
  {
    hide Universe, Bag;
    var all := ds + {d};
    if d !in ds {
      var first :| first in all && BagOf(all, libs, clock, height)
        == Bag(first, libs, clock) + BagOf(all - {first}, libs, clock, height);
      if first == d {
        assert all - {first} == ds;
      } else {
        BagOfMore(ds - {first}, d, libs, clock, height);
        BagOfMore(ds - {first}, first, libs, clock, height);
        assert all - {first} == ds - {first} + {d} && ds == ds - {first} + {first};
      }
    }
  }

  /** Some library that is reached, and not external, was never given a module. */
  ghost predicate MissesModule(l: CodeLibrary, libs: set<CodeLibrary>, clock: nat)
    requires l in libs && Universe(libs, clock)
    reads libs
  {
    None in ModulesOf(Below(l, libs, clock))
  }

  ghost predicate NoneMissing(walked: set<CodeLibrary>, libs: set<CodeLibrary>, clock: nat)
    requires walked <= libs && Universe(libs, clock)
    reads libs
  {
    None !in ModulesOf(Cover(walked, libs, clock))
  }

  lemma NoneMissingYet(libs: set<CodeLibrary>, clock: nat)
    requires Universe(libs, clock)
    ensures NoneMissing({}, libs, clock)
  {
    CoverOfNone(libs, clock);
    NoModules();
    hide Universe, Cover, ModulesOf;
  }

  lemma NoneMissingGrows(walked: set<CodeLibrary>, lib: CodeLibrary, mods: seq<Option<IrModule>>,
                         libs: set<CodeLibrary>, clock: nat)
    requires walked <= libs && lib in libs && Universe(libs, clock) && NoneMissing(walked, libs, clock)
    requires Members(mods) == ModulesOf({lib} + Below(lib, libs, clock)) && None !in mods
    ensures NoneMissing(walked + {lib}, libs, clock)
  {
    ModulesOfCover(walked, lib, libs, clock);
    hide Universe, Below, Cover, ModulesOf;
  }

  lemma NoneMissingAtAll(user: CodeLibrary, libs: set<CodeLibrary>, clock: nat)
    requires user in libs && user.linked <= libs && Universe(libs, clock) && NoneMissing(user.linked, libs, clock)
    ensures !MissesModule(user, libs, clock)
  {
    LinkFacts(user, libs, clock);
  }

  lemma MissingBelow(user: CodeLibrary, lib: CodeLibrary, mods: seq<Option<IrModule>>, libs: set<CodeLibrary>,
                     clock: nat)
    requires user in libs && lib in libs && lib in user.linked && Universe(libs, clock)
    requires Members(mods) == ModulesOf({lib} + Below(lib, libs, clock)) && None in mods
    ensures MissesModule(user, libs, clock)
  {
    assert None in Members(mods);
    LinkFacts(user, libs, clock);
    hide *;
    ModulesOfCover(user.linked - {lib}, lib, libs, clock);
    assert user.linked - {lib} + {lib} == user.linked;
    assert None in ModulesOf(Below(user, libs, clock));
    CoverMisses(user, libs, clock);
  }

  lemma CoverMisses(user: CodeLibrary, libs: set<CodeLibrary>, clock: nat)
    requires user in libs && Universe(libs, clock) && None in ModulesOf(Below(user, libs, clock))
    ensures MissesModule(user, libs, clock)
  {
    hide Universe, Below, ModulesOf;
  }

  /** What a finalized library links to has its modules. */
  ghost predicate ModulesPresent(libs: set<CodeLibrary>)
    reads libs
  {
    forall l, m :: l in libs && l.finalized && m in l.linked && m in libs ==> m.external || m.irModule.Some?
  }

  lemma LinkedHaveModules(l: CodeLibrary, libs: set<CodeLibrary>, clock: nat)
    requires l in libs && Universe(libs, clock) && !MissesModule(l, libs, clock)
    ensures forall m :: m in l.linked ==> m.external || m.irModule.Some?
  {
    forall m | m in l.linked ensures m.external || m.irModule.Some? {
      assert m in Below(l, libs, clock);
      assert !m.external ==> m.irModule in ModulesOf(Below(l, libs, clock));
    }
  }

  /** The walk finds nothing missing further down: it fails exactly at a library linked to directly. */
  lemma {:induction false} MissedDirectlyExactly(l: CodeLibrary, libs: set<CodeLibrary>, clock: nat)
    requires l in libs && Universe(libs, clock) && ModulesPresent(libs)
    ensures MissesModule(l, libs, clock) <==> exists m :: m in l.linked && !m.external && m.irModule == None
    ensures l.finalized ==> !MissesModule(l, libs, clock)
    decreases l.Height(clock)
  {
    LinkFacts(l, libs, clock);
    forall d | d in l.linked ensures !MissesModule(d, libs, clock) {
      MissedDirectlyExactly(d, libs, clock);
    }
    if MissesModule(l, libs, clock) {
      var m :| m in Below(l, libs, clock) && !m.external && m.irModule == None;
      assert forall d :: d in l.linked && m in Below(d, libs, clock) ==> m.irModule in ModulesOf(Below(d, libs, clock));
    } else {
      LinkedHaveModules(l, libs, clock);
    }
  }

  /** The list holds the modules of `user` and of what is reached over some of its links. */
  ghost predicate Collected(user: CodeLibrary, mods: seq<Option<IrModule>>, walked: set<CodeLibrary>,
                            libs: set<CodeLibrary>, clock: nat)
    requires user in libs && walked <= user.linked <= libs && Universe(libs, clock)
    reads libs
  {
    && Members(mods) == ModulesOf({user} + Cover(walked, libs, clock))
    && multiset(mods) == multiset{user.irModule} + BagOf(walked, libs, clock, user.Height(clock))
    && mods != [] && mods[0] == user.irModule
  }

  lemma NothingCollected(user: CodeLibrary, libs: set<CodeLibrary>, clock: nat)
    requires user in libs && Universe(libs, clock)
    ensures user.linked <= libs && (!user.external ==> Collected(user, [user.irModule], {}, libs, clock))
    ensures user.external ==>
      ModulesOf({user} + Below(user, libs, clock)) == Members<Option<IrModule>>([])
      && Bag(user, libs, clock) == multiset{}
  {
    LinkFacts(user, libs, clock);
    CoverOfNone(libs, clock);
    hide Universe, Below, Cover;
    assert {user} + {} == {user};
  }

  lemma AllCollected(user: CodeLibrary, mods: seq<Option<IrModule>>, libs: set<CodeLibrary>, clock: nat)
    requires user in libs && user.linked <= libs && Universe(libs, clock) && !user.external
    requires Collected(user, mods, user.linked, libs, clock)
    ensures Members(mods) == ModulesOf({user} + Below(user, libs, clock))
    ensures multiset(mods) == Bag(user, libs, clock) && mods != [] && mods[0] == user.irModule
  {
    LinkFacts(user, libs, clock);
  }

  lemma CollectedGrows(user: CodeLibrary, mods: seq<Option<IrModule>>, inner: seq<Option<IrModule>>,
                       walked: set<CodeLibrary>, lib: CodeLibrary, libs: set<CodeLibrary>, clock: nat)
    requires user in libs && walked + {lib} <= user.linked <= libs && lib !in walked && Universe(libs, clock)
    requires Collected(user, mods, walked, libs, clock)
    requires Members(inner) == ModulesOf({lib} + Below(lib, libs, clock)) && multiset(inner) == Bag(lib, libs, clock)
    ensures Collected(user, mods + inner, walked + {lib}, libs, clock)
  {
    LinkFacts(user, libs, clock);
    assert (mods + inner)[0] == mods[0];
    hide Universe, Below, Cover, Members, ModulesOf, Bag, BagOf, CodeLibrary.Height;
    BagOfMore(walked, lib, libs, clock, user.Height(clock));
    MembersGrow(user, mods, inner, walked, lib, libs, clock);
  }

  lemma MembersGrow(user: CodeLibrary, mods: seq<Option<IrModule>>, inner: seq<Option<IrModule>>,
                    walked: set<CodeLibrary>, lib: CodeLibrary, libs: set<CodeLibrary>, clock: nat)
    requires user in libs && walked <= libs && lib in libs && Universe(libs, clock)
    requires Members(mods) == ModulesOf({user} + Cover(walked, libs, clock))
    requires Members(inner) == ModulesOf({lib} + Below(lib, libs, clock))
    ensures Members(mods + inner) == ModulesOf({user} + Cover(walked + {lib}, libs, clock))
  {
    CoverGrows(walked, lib, libs, clock);
    hide Universe, Below, Cover, Members, ModulesOf;
    ModulesUnite({user} + Cover(walked, libs, clock), {lib} + Below(lib, libs, clock));
    assert {user} + Cover(walked, libs, clock) + ({lib} + Below(lib, libs, clock))
        == {user} + Cover(walked + {lib}, libs, clock);
    MembersUnite(mods, inner);
  }

  /** Links stay inside the universe, point at finalized libraries, and a finalized library was finalized
      after everything it links to. */
  ghost predicate Universe(libs: set<CodeLibrary>, clock: nat)
    reads libs
  {
    forall l :: l in libs ==>
      && l.linked <= libs
      && (l.external ==> l.linked == {})
      && (l.finalized ==> l.order < clock)
      && forall m :: m in l.linked ==> m.finalized && (l.finalized ==> m.order < l.order)
  }

  /** What can be reached over one link or more. */
  ghost function Below(l: CodeLibrary, libs: set<CodeLibrary>, clock: nat): (r: set<CodeLibrary>)
    requires l in libs && Universe(libs, clock)
    reads libs
    ensures r <= libs
    decreases l.Height(clock)
  {
    l.linked + set d, m | d in l.linked && m in Below(d, libs, clock) :: m
  }

  /** Some libraries and what they reach. */
  ghost function Cover(ds: set<CodeLibrary>, libs: set<CodeLibrary>, clock: nat): (r: set<CodeLibrary>)
    requires ds <= libs && Universe(libs, clock)
    reads libs
    ensures r <= libs
  {
    ds + set d, m | d in ds && m in Below(d, libs, clock) :: m
  }

  lemma LinkFacts(l: CodeLibrary, libs: set<CodeLibrary>, clock: nat)
    requires l in libs && Universe(libs, clock)
    ensures l.linked <= libs && (l.external ==> l.linked == {})
    ensures forall d :: d in l.linked ==> d.Height(clock) < l.Height(clock)
    ensures Below(l, libs, clock) == Cover(l.linked, libs, clock)
  {
    forall d | d in l.linked ensures d.Height(clock) < l.Height(clock) {
      assert d in libs;
    }
  }

  lemma CoverOfNone(libs: set<CodeLibrary>, clock: nat)
    requires Universe(libs, clock)
    ensures Cover({}, libs, clock) == {}
  {
  }

  lemma CoverGrows(ds: set<CodeLibrary>, d: CodeLibrary, libs: set<CodeLibrary>, clock: nat)
    requires ds <= libs && d in libs && Universe(libs, clock)
    ensures Cover(ds + {d}, libs, clock) == Cover(ds, libs, clock) + {d} + Below(d, libs, clock)
  {
    hide Universe, Below;
  }

  lemma CoverContains(ds: set<CodeLibrary>, d: CodeLibrary, libs: set<CodeLibrary>, clock: nat)
    requires ds <= libs && d in ds && Universe(libs, clock)
    ensures {d} + Below(d, libs, clock) <= Cover(ds, libs, clock)
  {
    hide Universe, Below;
  }

  ghost predicate DependenciesFirst(list: seq<CodeLibrary>)
    reads list
  {
    forall i :: 0 <= i < |list| ==> list[i].linked <= Members(list[..i])
  }

  lemma AppendKeepsOrder(list: seq<CodeLibrary>, inner: seq<CodeLibrary>, lib: CodeLibrary, libs: set<CodeLibrary>,
      clock: nat)
    requires lib in libs && Universe(libs, clock)
    requires DependenciesFirst(list) && DependenciesFirst(inner) && Members(inner) == Below(lib, libs, clock)
    ensures DependenciesFirst(list + inner + [lib])
    ensures Members(list + inner + [lib]) == Members(list) + {lib} + Below(lib, libs, clock)
  {
    LinkFacts(lib, libs, clock);
    assert lib.linked <= Cover(lib.linked, libs, clock);
    hide Universe, Below, Cover;
    var all := list + inner + [lib];
    forall i | 0 <= i < |all| ensures all[i].linked <= Members(all[..i]) {
      if i < |list| {
        assert all[..i] == list[..i] && all[i] == list[i];
      } else if i < |list| + |inner| {
        assert all[i] == inner[i - |list|];
        assert all[..i] == list + inner[..i - |list|];
        MembersUnite(list, inner[..i - |list|]);
      } else {
        assert all[..i] == list + inner;
        MembersUnite(list, inner);
      }
    }
    MembersUnite(list, inner);
    MembersUnite(list + inner, [lib]);
  }

  /** Reachability as the walks compute it: the smallest set that holds the links and is closed under them. */
  lemma {:induction false} BelowIsLeastClosed(l: CodeLibrary, libs: set<CodeLibrary>, clock: nat,
      closed: set<CodeLibrary>)
    requires l in libs && Universe(libs, clock)
    ensures l.linked <= Below(l, libs, clock)
    ensures forall m :: m in Below(l, libs, clock) ==> m.linked <= Below(l, libs, clock)
    ensures l.linked <= closed && (forall m :: m in closed ==> m.linked <= closed) ==> Below(l, libs, clock) <= closed
    decreases l.Height(clock)
  {
    LinkFacts(l, libs, clock);
    forall d | d in l.linked
      ensures d.linked <= Below(d, libs, clock) <= Below(l, libs, clock)
      ensures forall m :: m in Below(d, libs, clock) ==> m.linked <= Below(d, libs, clock)
      ensures d.linked <= closed && (forall m :: m in closed ==> m.linked <= closed) ==> Below(d, libs, clock) <= closed
    {
      BelowIsLeastClosed(d, libs, clock, closed);
    }
  }

  /** No library reaches itself: everything it reaches was finalized before it, or it is not finalized yet. */
  lemma {:induction false} LinksAreAcyclic(l: CodeLibrary, libs: set<CodeLibrary>, clock: nat)
    requires l in libs && Universe(libs, clock)
    ensures l !in Below(l, libs, clock)
    ensures forall m :: m in Below(l, libs, clock) ==> m.finalized && (l.finalized ==> m.order < l.order)
    decreases l.Height(clock)
  {
    LinkFacts(l, libs, clock);
    forall d | d in l.linked
      ensures forall m :: m in Below(d, libs, clock) ==> m.finalized && m.order < d.order
    {
      LinksAreAcyclic(d, libs, clock);
    }
    assert forall d :: d in l.linked ==> d.finalized;
  }

  /** A library not yet in use joins the universe. */
  lemma NewLibraryJoins(l: CodeLibrary, libs: set<CodeLibrary>, clock: nat)
    requires Universe(libs, clock) && l.linked == {} && !l.finalized
    ensures Universe(libs + {l}, clock) && (ModulesPresent(libs) ==> ModulesPresent(libs + {l}))
  {
  }

  /** What can be done to the libraries created so far, by position. */
  datatype Operation =
    | Create(external: bool)
    | AddModule(who: nat, irModule: IrModule)
    | AddLibrary(who: nat, other: nat)
    | AddFile(who: nat, file: File)
    | FinalizeNow(who: nat)

  /** Every run of operations, begun with no libraries at all, leaves a universe, in which no library
      reaches itself. An operation on a library that does not exist is left out. */
  method Run(operations: seq<Operation>) returns (created: seq<CodeLibrary>, ghost clock: nat)
    ensures fresh(Members(created)) && Universe(Members(created), clock) && ModulesPresent(Members(created))
    ensures forall l :: l in created ==> l !in Below(l, Members(created), clock)
  {
    created, clock := [], 0;
    for i := 0 to |operations|
      invariant fresh(Members(created)) && Universe(Members(created), clock) && ModulesPresent(Members(created))
    {
      created, clock := Perform(operations[i], created, clock);
    }
    forall l | l in created ensures l !in Below(l, Members(created), clock) {
      LinksAreAcyclic(l, Members(created), clock);
    }
  }

  method Perform(operation: Operation, created: seq<CodeLibrary>, ghost clock: nat)
      returns (after: seq<CodeLibrary>, ghost next: nat)
    requires Universe(Members(created), clock) && ModulesPresent(Members(created))
    modifies Members(created)
    ensures fresh(Members(after) - Members(created)) && Members(created) <= Members(after)
    ensures Universe(Members(after), next) && ModulesPresent(Members(after))
  {
    hide Universe, ModulesPresent, MissesModule;
    after, next := created, clock;
    var r: Outcome;
    match operation
    case Create(external) =>
      var l := new CodeLibrary(external);
      NewLibraryJoins(l, Members(created), clock);
      after := created + [l];
      MembersUnite(created, [l]);
      assert Members([l]) == {l};
    case AddModule(who, irModule) =>
      if who < |created| {
        var twice: bool;
        r, twice := created[who].AddIrModule(irModule, Members(created), clock);
      }
    case AddLibrary(who, other) =>
      if who < |created| && other < |created| {
        r, next := created[who].AddLinkingLibrary(created[other], Members(created), clock);
      }
    case AddFile(who, file) =>
      if who < |created| {
        r := created[who].AddLinkingFile(file, Members(created), clock);
      }
    case FinalizeNow(who) =>
      if who < |created| {
        r, next := created[who].Finalize(Members(created), clock);
      }
  }

  // ----- files to link with -----

  /** Every file of a linked library is linked with its user too. */
  ghost predicate FilesReachUsers(libs: set<CodeLibrary>)
    reads libs
  {
    forall l, m :: l in libs && m in l.linked && m in libs ==> m.files <= l.files
  }

  ghost predicate UsersHave(l: CodeLibrary, file: File, libs: set<CodeLibrary>)
    reads libs
  {
    forall u :: u in libs && l in u.linked ==> file in u.files
  }

  /** One link is enough to say: files then reach every library that can reach theirs. */
  lemma {:induction false} FilesReachAllUsers(l: CodeLibrary, libs: set<CodeLibrary>, clock: nat)
    requires l in libs && Universe(libs, clock) && FilesReachUsers(libs)
    ensures forall m :: m in Below(l, libs, clock) ==> m.files <= l.files
    decreases l.Height(clock)
  {
    LinkFacts(l, libs, clock);
    forall d | d in l.linked ensures forall m :: m in Below(d, libs, clock) ==> m.files <= d.files <= l.files {
      FilesReachAllUsers(d, libs, clock);
    }
  }

  lemma NothingBelow(l: CodeLibrary, libs: set<CodeLibrary>, clock: nat)
    requires l in libs && Universe(libs, clock) && l.linked == {}
    ensures !MissesModule(l, libs, clock)
  {
    LinkFacts(l, libs, clock);
    CoverOfNone(libs, clock);
    NoModules();
    hide Universe, Below, Cover, ModulesOf;
  }

  lemma NoSelfLink(l: CodeLibrary, libs: set<CodeLibrary>, clock: nat)
    requires l in libs && Universe(libs, clock)
    ensures l !in l.linked
  {
  }

  /** It happens: a file given to a library after it was linked to. */
  method LateFileIsMissed() returns (user: CodeLibrary, used: CodeLibrary, file: File)
    ensures used in user.linked && file in used.files && file !in user.files
    ensures exists clock: nat :: Universe({user, used}, clock)
  {
    user := new CodeLibrary(false);
    used := new CodeLibrary(false);
    ghost var clock: nat := 0;
    var r: Outcome;
    NothingBelow(used, {user, used}, clock);
    r, clock := user.AddLinkingLibrary(used, {user, used}, clock);
    file := "late";
    r := used.AddLinkingFile(file, {user, used}, clock);
  }

  /** And the list of a library that links to an external one cannot be read. */
  method ExternalHasNoList() returns (user: CodeLibrary, list: Option<seq<CodeLibrary>>)
    ensures !user.external && list == None
  {
    user := new CodeLibrary(false);
    var other := new CodeLibrary(true);
    ghost var libs, clock: nat := {user, other}, 0;
    var r: Outcome;
    NothingBelow(other, libs, clock);
    r, clock := user.AddLinkingLibrary(other, libs, clock);
    LinkFacts(user, libs, clock);
    CoverContains(user.linked, other, libs, clock);
    list := user.LinkingLibraries(libs, clock);
  }

  /** A library without a module can be linked to and is finalized then, but its user never can be. */
  method ModuleIsMissed() returns (user: CodeLibrary, used: CodeLibrary, r: Outcome)
    ensures used in user.linked && used.finalized && used.irModule == None
    ensures !user.finalized && r == MissingModule
  {
    user := new CodeLibrary(false);
    used := new CodeLibrary(false);
    ghost var libs, clock: nat := {user, used}, 0;
    NothingBelow(used, libs, clock);
    r, clock := user.AddLinkingLibrary(used, libs, clock);
    MissedDirectlyExactly(user, libs, clock);
    r, clock := user.Finalize(libs, clock);
  }

  lemma OneLinkBag(l: CodeLibrary, d: CodeLibrary, libs: set<CodeLibrary>, clock: nat)
    requires l in libs && d in libs && Universe(libs, clock) && l.linked == {d} && !l.external
    ensures Bag(l, libs, clock) == multiset{l.irModule} + Bag(d, libs, clock)
  {
    LinkFacts(l, libs, clock);
    BagOfMore({}, d, libs, clock, l.Height(clock));
    assert {} + {d} == {d};
  }

  lemma TwoLinksBag(l: CodeLibrary, d: CodeLibrary, e: CodeLibrary, libs: set<CodeLibrary>, clock: nat)
    requires l in libs && d in libs && e in libs && d != e && Universe(libs, clock)
    requires l.linked == {d, e} && !l.external
    ensures Bag(l, libs, clock) == multiset{l.irModule} + Bag(d, libs, clock) + Bag(e, libs, clock)
  {
    LinkFacts(l, libs, clock);
    BagOfMore({d}, e, libs, clock, l.Height(clock));
    BagOfMore({}, d, libs, clock, l.Height(clock));
    assert {} + {d} == {d} && {d} + {e} == {d, e};
  }

  lemma NoLinkBag(l: CodeLibrary, libs: set<CodeLibrary>, clock: nat)
    requires l in libs && Universe(libs, clock) && l.linked == {} && !l.external
    ensures Bag(l, libs, clock) == multiset{l.irModule}
  {
    LinkFacts(l, libs, clock);
  }

  /** A library that two others link to gives its module twice to their common user. */
  lemma SharedModuleTwice(user: CodeLibrary, left: CodeLibrary, right: CodeLibrary, shared: CodeLibrary,
                          libs: set<CodeLibrary>, clock: nat)
    requires {user, left, right, shared} <= libs && Universe(libs, clock) && left != right
    requires !user.external && !left.external && !right.external && !shared.external
    requires user.linked == {left, right} && left.linked == {shared} == right.linked && shared.linked == {}
    ensures Bag(user, libs, clock)
      == multiset{user.irModule, left.irModule, right.irModule, shared.irModule, shared.irModule}
  {
    hide Universe, Bag, BagOf;
    TwoLinksBag(user, left, right, libs, clock);
    OneLinkBag(left, shared, libs, clock);
    OneLinkBag(right, shared, libs, clock);
    NoLinkBag(shared, libs, clock);
  }
}
