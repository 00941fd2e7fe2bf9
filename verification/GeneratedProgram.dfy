/** The init and exit functions that src/core/codegen.c emits, one pair a module, over their static flags and context
    globals. */
module GeneratedProgram {
  import opened ModuleGraph
  import opened ModuleInit
  import opened ModuleExit
  import opened ModuleRun

  class Program {
    const g: Graph
    /** The modules whose `initialized` flag is set, and those whose `exited` flag is. */
    var initialized: set<Name>
    var exited: set<Name>
    /** The context globals, 0 for NULL; the parent of every live context; the next address of a context. */
    var ctx: map<Name, nat>
    var live: map<nat, nat>
    var next: nat
    /** The calls of `init_local` and `exit_local` so far. */
    var initCalls: seq<Name>
    var exitCalls: seq<Name>
    ghost var ready: seq<Name>
    ghost var gone: seq<Name>
    ghost var freed: seq<Free>

    ghost function St(): State
      reads this
    {
      State(initialized, ready, gone, ctx, live, next, freed)
    }

    ghost predicate Valid()
      reads this
    {
      && Acyclic(g)
      && (forall x :: x in exited <==> x in gone)
      && initCalls == Calls(ready, g.inits) && exitCalls == Calls(gone, g.exits)
    }

    constructor (g: Graph)
      requires Acyclic(g)
      ensures this.g == g && Valid() && St() == State({}, [], [], map[], map[], 1, [])
    {
      this.g := g;
      initialized, exited, ctx, live, next := {}, {}, map[], map[], 1;
      initCalls, exitCalls, ready, gone, freed := [], [], [], [], [];
    }

    /** `come_m__ctx`. */
    function Context(m: Name): nat
      reads this
    {
      Ctx(State(initialized, [], [], ctx, live, next, []), m)
    }

    method NewContext(m: Name, parent: nat)
      requires Valid()
      modifies this
      ensures Valid() && St() == NewCtx(old(St()), m, parent)
    {
      ctx, live, next := ctx[m := next], live[next := parent], next + 1;
    }

    /** `mem_talloc_free` on the context of m. */
    method FreeContext(m: Name)
      requires Valid()
      modifies this
      ensures Valid() && St() == Release(old(St()), m)
    {
      var id := Context(m);
      freed := freed + [Free(m, set a | a in live && live[a] == id)];
      live := map a | a in live && !Under(live, a, id) :: live[a];
      assert St() == Release(old(St()), m);
    }

    /** `come_m__init`. */
    method Init(m: Name)
      requires Valid() && m in g.imports
      modifies this
      ensures Valid() && St() == RunInit(g, old(St()), m)
      decreases Rank(g, m), 1
    {
      if m in initialized { return; }
      initialized := initialized + {m};
      ghost var s := St();
      var i := 0;
      while i < |g.imports[m]|
        invariant 0 <= i <= |g.imports[m]| && Valid()
        invariant RunImports(g, s, m, 0) == RunImports(g, St(), m, i)
      {
        assert ImportOk(g, m, i);
        var imported := Import(g, m, i);
        if imported !in g.system {
          if Context(imported) == 0 { NewContext(imported, Context(m)); }
        }
        Init(imported);
        i := i + 1;
      }
      CallsAppend(ready, m, g.inits);
      if m in g.inits { initCalls := initCalls + [m]; }
      ready := ready + [m];
    }

    /** `come_m__exit`. */
    method Exit(m: Name)
      requires Valid() && m in g.imports
      modifies this
      ensures Valid() && St() == RunExit(g, old(St()), m)
      decreases Rank(g, m), 1
    {
      if m in exited { return; }
      CallsAppend(gone, m, g.exits);
      exited := exited + {m};
      gone := gone + [m];
      if m in g.exits { exitCalls := exitCalls + [m]; }
      ghost var s := St();
      var i := |g.imports[m]|;
      while i > 0
        invariant 0 <= i <= |g.imports[m]| && Valid()
        invariant RunExits(g, s, m, |g.imports[m]|) == RunExits(g, St(), m, i)
      {
        assert ImportOk(g, m, i - 1);
        ExitImport(Import(g, m, i - 1));
        i := i - 1;
      }
    }

    /** Its lines for one import: exit, and for modules that have one, the context freed and its global cleared. */
    method ExitImport(imported: Name)
      requires Valid() && imported in g.imports
      modifies this
      ensures Valid() && St() == Close(g, RunExit(g, old(St()), imported), imported)
      decreases Rank(g, imported), 2
    {
      Exit(imported);
      if imported !in g.system {
        if Context(imported) != 0 {
          FreeContext(imported);
          ctx := ctx[imported := 0];
        }
      }
    }

    /** The emitted `main`, the user's main left out. */
    method RunProgram(main: Name)
      requires Valid() && main in g.imports && St() == State({}, [], [], map[], map[], 1, [])
      modifies this
      ensures Valid() && St() == RunMain(g, main)
      ensures live == map[] && (forall x :: x in initCalls <==> Reach(g, main, x) && x in g.inits)
      ensures forall x :: x in exitCalls <==> Reach(g, main, x) && x in g.exits
    {
      NewContext(main, 0);
      Init(main);
      Exit(main);
      FreeContext(main);
      WholeRun(g, main);
      LocalCalls(g, main);
    }
  }
}
