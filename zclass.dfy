/**
 * The class descriptor of the runtime: how a declared class is registered,
 * linked to its parent, has its deferred constants and property defaults
 * forced and its methods compiled, how ancestry is queried, how its short
 * name is derived and how its static-property table is created.
 */
module ZClasses {
  import opened Wrappers
  import opened Values
  import opened HashTable

  /** Declaration modifiers (the runtime's `ZObjectAttr` bit-set). */
  datatype Attr = Static | Abstract | Final | Public | Protected | Private

  datatype ZObjectAttr = ZObjectAttr(flags: set<Attr>) {
    predicate IsStatic() { Static in flags }
  }

  /**
   * A method body, by identity. `compilable` says whether the body supports
   * the compile step (the `compilable` interface of the runtime).
   */
  datatype Callable = Callable(id: nat, compilable: bool)

  /**
   * The collaborators the class compiler calls through its context. Each is
   * deterministic and may fail.
   */
  datatype Context = Context(
    registerClass: (string, ZClass) -> Option<Error>,  // Global().RegisterClass
    getClass: string -> Result<ZClass, Error>,         // Global().GetClass
    runDelayed: Evaluator,                             // compileDelayed.Run
    compileCallable: Callable -> Option<Error>)        // compilable.compile

  /** A declared property; its default is forced in place when the class compiles. */
  class ZClassProp {
    const VarName: string
    var Default: Val
    const Modifiers: ZObjectAttr

    constructor (name: string, default: Val, modifiers: ZObjectAttr)
      ensures VarName == name && Default == default && Modifiers == modifiers
    {
      VarName, Default, Modifiers := name, default, modifiers;
    }
  }

  /** A declared method; method tables share these objects by reference. */
  class ZClassMethod {
    const Name: string
    const Modifiers: ZObjectAttr
    const Method: Callable

    constructor (name: string, modifiers: ZObjectAttr, body: Callable)
      ensures Name == name && Modifiers == modifiers && Method == body
    {
      Name, Modifiers, Method := name, modifiers, body;
    }
  }

  /** What a property declaration contributes to the static-property table. */
  datatype PropDecl = PropDecl(name: string, isStatic: bool, default: Val)

  /** The part of a class descriptor that compiling it may change. */
  datatype ClassView = ClassView(
    parents: map<ZClass, ZClass>,
    parent: ZClass?,
    consts: map<string, Val>,
    defaults: seq<Val>,
    methods: map<string, ZClassMethod>)

  /**
   * The method table after inheriting from a parent: every local method
   * stays, and every parent method whose name is not declared locally is
   * added as the very same method object.
   */
  function MergeMethods(local: map<string, ZClassMethod>, inherited: map<string, ZClassMethod>)
    : (r: map<string, ZClassMethod>)
    ensures r.Keys == local.Keys + inherited.Keys
    ensures forall n :: n in local ==> r[n] == local[n]
    ensures forall n :: n in inherited && n !in local ==> r[n] == inherited[n]
  {
    inherited + local
  }

  /** Every compilable method body of `ms` compiles. */
  predicate AllCompile(ms: map<string, ZClassMethod>, compile: Callable -> Option<Error>) {
    forall n :: n in ms && ms[n].Method.compilable ==> compile(ms[n].Method).None?
  }

  /** Some compilable method body of `ms` fails to compile, with `e`. */
  predicate MethodFailure(ms: map<string, ZClassMethod>, compile: Callable -> Option<Error>, e: Error) {
    exists n :: n in ms && ms[n].Method.compilable && compile(ms[n].Method) == Some(e)
  }

  /** The method table of the class `lookup` found, if it found one. */
  ghost function ParentMethods(lookup: Result<ZClass, Error>): map<string, ZClassMethod>
    reads if lookup.Success? then {lookup.value} else {}
  {
    if lookup.Success? then lookup.value.Methods else map[]
  }

  /**
   * What compiling a class does, given the class's parent-name string, the
   * method table of the class that parent name resolves to (read when the
   * class compiles), the class's state before and after, and the error
   * returned. The phases run in order and the first failure ends the
   * compile: parent lookup, then the constants, then the property defaults,
   * then the methods.
   */
  ghost predicate CompileSpec(ctx: Context, extendsStr: string, inherited: map<string, ZClassMethod>,
                              pre: ClassView, post: ClassView, err: Option<Error>)
  {
    var lookup := ctx.getClass(extendsStr);
    var eval := ctx.runDelayed;
    if extendsStr != "" && lookup.Failure? then
      err == Some(lookup.error) && post == pre.(parents := map[])
    else
      && (if extendsStr == "" then
            post.parents == map[] && post.parent == pre.parent && post.methods == pre.methods
          else
            && post.parents == map[lookup.value := lookup.value]
            && post.parent == lookup.value
            && post.methods == MergeMethods(pre.methods, inherited))
      && PartlyForcedMap(pre.consts, post.consts, eval)
      && if !AllEvaluate(pre.consts, eval) then
           err.Some? && ConstFailure(pre.consts, eval, err.value) && post.defaults == pre.defaults
         else
           && post.consts == ForceMap(pre.consts, eval)
           && if FirstFailure(pre.defaults, eval).Some? then
                err == FirstFailure(pre.defaults, eval) && PartlyForcedSeq(pre.defaults, post.defaults, eval)
              else
                && post.defaults == ForceSeq(pre.defaults, eval)
                && (err.None? <==> AllCompile(post.methods, ctx.compileCallable))
                && (err.Some? ==> MethodFailure(post.methods, ctx.compileCallable, err.value))
  }

  /**
   * A compile succeeds exactly when the parent name is empty or resolves,
   * every deferred constant and property default evaluates, and every
   * compilable method of the merged table compiles.
   */
  lemma CompileSucceedsIff(ctx: Context, extendsStr: string, inherited: map<string, ZClassMethod>,
                           pre: ClassView, post: ClassView, err: Option<Error>)
    requires CompileSpec(ctx, extendsStr, inherited, pre, post, err)
    ensures err.None? <==>
      && (extendsStr == "" || ctx.getClass(extendsStr).Success?)
      && AllEvaluate(pre.consts, ctx.runDelayed)
      && (forall i :: 0 <= i < |pre.defaults| ==> Evaluates(pre.defaults[i], ctx.runDelayed))
      && AllCompile(post.methods, ctx.compileCallable)
  {
  }

  /**
   * A failed compile returns the error of its first failing phase: the
   * parent lookup, some deferred constant, the first failing property
   * default, or some compilable method.
   */
  lemma CompileFailureOrigin(ctx: Context, extendsStr: string, inherited: map<string, ZClassMethod>,
                             pre: ClassView, post: ClassView, e: Error)
    requires CompileSpec(ctx, extendsStr, inherited, pre, post, Some(e))
    ensures
      || (extendsStr != "" && ctx.getClass(extendsStr) == Failure(e))
      || ConstFailure(pre.consts, ctx.runDelayed, e)
      || FirstFailure(pre.defaults, ctx.runDelayed) == Some(e)
      || MethodFailure(post.methods, ctx.compileCallable, e)
  {
  }

  /**
   * After a successful compile: no constant and no property default is
   * deferred; every local method is the same object as before; every
   * parent method not declared locally is the parent's own object; parents
   * holds nothing without a parent name and exactly the parent with one.
   */
  lemma CompiledClass(ctx: Context, extendsStr: string, inherited: map<string, ZClassMethod>,
                      pre: ClassView, post: ClassView)
    requires CompileSpec(ctx, extendsStr, inherited, pre, post, None)
    ensures forall k :: k in post.consts ==> !post.consts[k].Deferred?
    ensures forall i :: 0 <= i < |post.defaults| ==> !post.defaults[i].Deferred?
    ensures forall n :: n in pre.methods ==> n in post.methods && post.methods[n] == pre.methods[n]
    ensures extendsStr == "" ==> post.parents == map[] && post.methods == pre.methods
    ensures extendsStr != "" ==>
      && ctx.getClass(extendsStr).Success?
      && post.parents == map[ctx.getClass(extendsStr).value := ctx.getClass(extendsStr).value]
      && post.methods.Keys == pre.methods.Keys + inherited.Keys
      && forall n :: n in inherited && n !in pre.methods ==> post.methods[n] == inherited[n]
  {
  }

  /** The table entry a static property starts with: NULL for a nil default. */
  function InitialValue(v: Val): Val {
    if v == Nil then Concrete(Null) else v
  }

  /** The static-property table as the seeding loop builds it, one Put per static property. */
  function StaticSeed(decls: seq<PropDecl>): seq<Entry>
  {
    if decls == [] then []
    else
      var prev := StaticSeed(decls[..|decls| - 1]);
      var d := decls[|decls| - 1];
      if d.isStatic then Put(prev, d.name, InitialValue(d.default)) else prev
  }

  /** One entry per static property, in declaration order (the reference definition). */
  function StaticEntries(decls: seq<PropDecl>): seq<Entry>
  {
    if decls == [] then []
    else
      (if decls[0].isStatic then [Entry(decls[0].name, InitialValue(decls[0].default))] else [])
      + StaticEntries(decls[1..])
  }

  /** No two static properties share a name. */
  predicate StaticNamesDistinct(decls: seq<PropDecl>) {
    forall i, j :: 0 <= i < j < |decls| && decls[i].isStatic && decls[j].isStatic ==>
      decls[i].name != decls[j].name
  }

  /** The static property named `k`, if any, appears in `decls`. */
  predicate DeclaresStatic(decls: seq<PropDecl>, k: string) {
    exists i :: 0 <= i < |decls| && decls[i].isStatic && decls[i].name == k
  }

  function Prefix(decls: seq<PropDecl>): seq<PropDecl>
    requires decls != []
  {
    decls[..|decls| - 1]
  }

  /** The static names of `a + [d]`: those of `a`, and `d`'s name if it is static. */
  lemma DeclaresStaticSnoc(a: seq<PropDecl>, d: PropDecl)
    ensures forall k :: DeclaresStatic(a + [d], k) <==> DeclaresStatic(a, k) || (d.isStatic && d.name == k)
  {
    var decls := a + [d];
    forall k | DeclaresStatic(a, k) ensures DeclaresStatic(decls, k) {
      var i :| 0 <= i < |a| && a[i].isStatic && a[i].name == k;
      assert decls[i] == a[i];
    }
    forall k | DeclaresStatic(decls, k) ensures DeclaresStatic(a, k) || (d.isStatic && d.name == k) {
      var i :| 0 <= i < |decls| && decls[i].isStatic && decls[i].name == k;
      if i < |a| { assert a[i] == decls[i]; }
    }
    if d.isStatic { assert decls[|a|] == d; }
  }

  /**
   * The seeded table's keys are exactly the names of the static
   * properties, each once, even when two static properties share a name.
   */
  lemma {:induction false} StaticSeedKeys(decls: seq<PropDecl>)
    ensures forall k :: k in KeysOf(StaticSeed(decls)) <==> DeclaresStatic(decls, k)
    ensures Distinct(KeysOf(StaticSeed(decls)))
    decreases |decls|
  {
    if decls != [] {
      var a, d := Prefix(decls), decls[|decls| - 1];
      assert decls == a + [d];
      StaticSeedKeys(a);
      DeclaresStaticSnoc(a, d);
      if d.isStatic {
        PutKeys(StaticSeed(a), d.name, InitialValue(d.default));
      }
    }
  }

  /** `decls[i]` is the last static property named `k`. */
  predicate LastStaticAt(decls: seq<PropDecl>, k: string, i: int) {
    && 0 <= i < |decls| && decls[i].isStatic && decls[i].name == k
    && forall j :: i < j < |decls| ==> !(decls[j].isStatic && decls[j].name == k)
  }

  /**
   * `es` holds, under `k`, the initial value of the last static property
   * named `k`, and nothing when no static property has that name.
   */
  predicate HoldsLastStatic(es: seq<Entry>, decls: seq<PropDecl>, k: string) {
    && (Find(es, k).None? <==> !DeclaresStatic(decls, k))
    && (DeclaresStatic(decls, k) ==>
          exists i :: 0 <= i < |decls| && LastStaticAt(decls, k, i) && Find(es, k) == Some(InitialValue(decls[i].default)))
  }

  /**
   * Each key of the seeded table holds the initial value of the last static
   * property of that name, since a later declaration overwrites an earlier
   * one; a name no static property has is absent.
   */
  lemma {:induction false} StaticSeedFind(decls: seq<PropDecl>, k: string)
    ensures HoldsLastStatic(StaticSeed(decls), decls, k)
    decreases |decls|
  {
    if decls != [] {
      var a, d := Prefix(decls), decls[|decls| - 1];
      assert decls == a + [d];
      StaticSeedFind(a, k);
      DeclaresStaticSnoc(a, d);
      var es := StaticSeed(decls);
      if d.isStatic && d.name == k {
        PutFind(StaticSeed(a), d.name, InitialValue(d.default), k);
        assert Find(es, k) == Some(InitialValue(d.default));
        assert LastStaticAt(decls, k, |decls| - 1);
      } else {
        assert Find(es, k) == Find(StaticSeed(a), k) by {
          if d.isStatic {
            PutFind(StaticSeed(a), d.name, InitialValue(d.default), k);
          }
        }
        assert DeclaresStatic(decls, k) == DeclaresStatic(a, k);
        if DeclaresStatic(a, k) {
          var i :| 0 <= i < |a| && LastStaticAt(a, k, i) && Find(StaticSeed(a), k) == Some(InitialValue(a[i].default));
          assert decls[i] == a[i];
          assert LastStaticAt(decls, k, i);
        }
      }
    }
  }

  /** Appending a declaration appends at most its own entry. */
  lemma {:induction false} StaticEntriesSnoc(a: seq<PropDecl>, d: PropDecl)
    ensures StaticEntries(a + [d]) ==
      StaticEntries(a) + (if d.isStatic then [Entry(d.name, InitialValue(d.default))] else [])
  {
    if a == [] {
      assert a + [d] == [d];
    } else {
      assert (a + [d])[1..] == a[1..] + [d];
      StaticEntriesSnoc(a[1..], d);
    }
  }

  /** Every key of the reference table is the name of a static property. */
  lemma {:induction false} StaticEntriesKeys(a: seq<PropDecl>, k: string)
    ensures k in KeysOf(StaticEntries(a)) ==> DeclaresStatic(a, k)
  {
    if a != [] {
      var head := if a[0].isStatic then [Entry(a[0].name, InitialValue(a[0].default))] else [];
      var es := StaticEntries(a);
      assert es == head + StaticEntries(a[1..]);
      StaticEntriesKeys(a[1..], k);
      if k in KeysOf(es) && !(a[0].isStatic && a[0].name == k) {
        var i :| 0 <= i < |es| && KeysOf(es)[i] == k;
        assert KeysOf(StaticEntries(a[1..]))[i - |head|] == k;
        var j :| 0 <= j < |a[1..]| && a[1..][j].isStatic && a[1..][j].name == k;
        assert a[j + 1] == a[1..][j];
      }
    }
  }

  /**
   * When no two static properties share a name, the seeded table holds one
   * entry per static property, in declaration order, with NULL for a nil
   * default and the declared default otherwise.
   */
  lemma {:induction false} StaticSeedInOrder(decls: seq<PropDecl>)
    requires StaticNamesDistinct(decls)
    ensures StaticSeed(decls) == StaticEntries(decls)
    decreases |decls|
  {
    if decls != [] {
      var a, d := Prefix(decls), decls[|decls| - 1];
      assert decls == a + [d];
      assert StaticNamesDistinct(a) by {
        forall i, j | 0 <= i < j < |a| && a[i].isStatic && a[j].isStatic ensures a[i].name != a[j].name {
          assert a[i] == decls[i] && a[j] == decls[j];
        }
      }
      StaticSeedInOrder(a);
      StaticEntriesSnoc(a, d);
      StaticEntriesKeys(a, d.name);
      DeclaresStaticSnoc(a, d);
      assert d.isStatic ==> !DeclaresStatic(a, d.name) by {
        forall i | 0 <= i < |a| && a[i].isStatic && d.isStatic ensures a[i].name != d.name {
          assert decls[i] == a[i] && decls[|a|] == d;
        }
      }
    }
  }

  class ZClass {
    const Name: string
    // the parent and interface names as declared, before lookup
    const ExtendsStr: string
    const ImplementsStr: seq<string>

    var parents: map<ZClass, ZClass>  // all parents, extends and implements
    var Extends: ZClass?
    var Implements: seq<ZClass>
    var Const: map<string, Val>
    const Props: seq<ZClassProp>
    var Methods: map<string, ZClassMethod>
    var StaticProps: ZHashTable?
    var Constructor: ZClassMethod?

    constructor (name: string, extendsStr: string, implementsStr: seq<string>,
                 consts: map<string, Val>, props: seq<ZClassProp>, methods: map<string, ZClassMethod>)
      ensures Name == name && ExtendsStr == extendsStr && ImplementsStr == implementsStr
      ensures Const == consts && Props == props && Methods == methods
      ensures parents == map[] && Extends == null && Implements == []
      ensures StaticProps == null && Constructor == null
      ensures ParentsInvariant()
    {
      Name, ExtendsStr, ImplementsStr := name, extendsStr, implementsStr;
      Const, Props, Methods := consts, props, methods;
      parents, Extends, Implements := map[], null, [];
      StaticProps, Constructor := null, null;
    }

    /** `parents` holds nothing, or exactly the direct parent. */
    ghost predicate ParentsInvariant()
      reads this
    {
      parents == map[] || (Extends != null && parents == map[Extends := Extends])
    }

    /** The current property defaults, in declaration order. */
    ghost function Defaults(): seq<Val>
      reads Props
    {
      seq(|Props|, i reads Props requires 0 <= i < |Props| => Props[i].Default)
    }

    /** The properties as the static-property table sees them. */
    ghost function PropDecls(): seq<PropDecl>
      reads Props
    {
      seq(|Props|, i reads Props requires 0 <= i < |Props| =>
        PropDecl(Props[i].VarName, Props[i].Modifiers.IsStatic(), Props[i].Default))
    }

    ghost function View(): ClassView
      reads this, Props
    {
      ClassView(parents, Extends, Const, Defaults(), Methods)
    }

    /** The declared parent name is empty, or it resolves. */
    predicate Linked(ctx: Context) {
      ExtendsStr == "" || ctx.getClass(ExtendsStr).Success?
    }

    /** Registers the class, then compiles it; a failed registration skips the compile. */
    method Run(ctx: Context) returns (err: Option<Error>)
      // the registry hands out classes that already exist
      requires allocated(ctx.getClass(ExtendsStr))
      modifies this`parents, this`Extends, this`Methods, this`Const, Props
      ensures ctx.registerClass(Name, this).Some? ==>
        err == ctx.registerClass(Name, this) && View() == old(View())
      ensures ctx.registerClass(Name, this).None? ==>
        CompileSpec(ctx, ExtendsStr, old(ParentMethods(ctx.getClass(ExtendsStr))), old(View()), View(), err)
      ensures old(ParentsInvariant()) ==> ParentsInvariant()
    {
      err := ctx.registerClass(Name, this);
      if err.Some? {
        return;
      }
      err := Compile(ctx);
    }

    /**
     * Links the class to its parent and merges the parent's methods, forces
     * every deferred constant and property default, and compiles every
     * compilable method. `parents` is reset each time.
     */
    method Compile(ctx: Context) returns (err: Option<Error>)
      // the registry hands out classes that already exist
      requires allocated(ctx.getClass(ExtendsStr))
      modifies this`parents, this`Extends, this`Methods, this`Const, Props
      ensures CompileSpec(ctx, ExtendsStr, old(ParentMethods(ctx.getClass(ExtendsStr))), old(View()), View(), err)
      ensures ParentsInvariant()
      ensures ExtendsStr == "" ==> forall x: ZClass? :: !InstanceOf(x)
      ensures ExtendsStr != "" && Linked(ctx) ==> forall x: ZClass? :: InstanceOf(x) <==> x == Extends
    {
      ghost var pre := View();
      err := LinkParent(ctx);
      if err.Some? {
        return;
      }
      assert Const == pre.consts && Defaults() == pre.defaults;
      err := ForceConstants(ctx);
      if err.Some? {
        return;
      }
      err := ForceDefaults(ctx);
      if err.Some? {
        return;
      }
      err := CompileMethods(ctx);
    }

    /** Resets `parents`, then looks the parent up and inherits its methods. */
    method LinkParent(ctx: Context) returns (err: Option<Error>)
      // the registry hands out classes that already exist
      requires allocated(ctx.getClass(ExtendsStr))
      modifies this`parents, this`Extends, this`Methods
      ensures ExtendsStr == "" ==>
        err.None? && parents == map[] && Extends == old(Extends) && Methods == old(Methods)
      ensures ExtendsStr != "" && ctx.getClass(ExtendsStr).Failure? ==>
        err == Some(ctx.getClass(ExtendsStr).error) &&
        parents == map[] && Extends == old(Extends) && Methods == old(Methods)
      ensures ExtendsStr != "" && ctx.getClass(ExtendsStr).Success? ==>
        var p := ctx.getClass(ExtendsStr).value;
        err.None? && parents == map[p := p] && Extends == p &&
        Methods == MergeMethods(old(Methods), old(p.Methods))
    {
      parents := map[];
      if ExtendsStr != "" {
        var found := ctx.getClass(ExtendsStr);
        if found.Failure? {
          return Some(found.error);
        }
        var subc := found.value;
        // never taken: parents was emptied above
        if subc in parents {
          return Some(ExtendsLoop);
        }
        Extends := subc;
        parents := parents[subc := subc];

        var inherited := subc.Methods;
        ghost var local := Methods;
        var todo := inherited.Keys;
        while todo != {}
          invariant todo <= inherited.Keys
          invariant Methods.Keys == local.Keys + (inherited.Keys - todo)
          invariant forall n :: n in Methods ==> Methods[n] == (if n in local then local[n] else inherited[n])
          invariant parents == map[subc := subc] && Extends == subc
          decreases todo
        {
          var n :| n in todo;
          if n !in Methods {
            Methods := Methods[n := inherited[n]];
          }
          todo := todo - {n};
        }
      }
      return None;
    }

    /** Replaces every deferred constant by its evaluated value, in unspecified order. */
    method ForceConstants(ctx: Context) returns (err: Option<Error>)
      modifies this`Const
      ensures PartlyForcedMap(old(Const), Const, ctx.runDelayed)
      ensures err.None? <==> AllEvaluate(old(Const), ctx.runDelayed)
      ensures err.None? ==> Const == ForceMap(old(Const), ctx.runDelayed)
      ensures err.Some? ==> ConstFailure(old(Const), ctx.runDelayed, err.value)
    {
      ghost var pre := Const;
      var todo := Const.Keys;
      while todo != {}
        invariant todo <= pre.Keys
        invariant Const.Keys == pre.Keys
        invariant forall k :: k in pre && k !in todo ==>
          Evaluates(pre[k], ctx.runDelayed) && Const[k] == Force(pre[k], ctx.runDelayed)
        invariant forall k :: k in todo ==> Const[k] == pre[k]
        decreases todo
      {
        var k :| k in todo;
        var v := Const[k];
        if v.Deferred? {
          var z := ctx.runDelayed(v.expr);
          if z.Failure? {
            return Some(z.error);
          }
          Const := Const[k := Concrete(z.value)];
        }
        todo := todo - {k};
      }
      assert Const == ForceMap(pre, ctx.runDelayed);
      return None;
    }

    /** Replaces every deferred property default by its evaluated value, in declaration order. */
    method ForceDefaults(ctx: Context) returns (err: Option<Error>)
      modifies Props
      ensures err == FirstFailure(old(Defaults()), ctx.runDelayed)
      ensures PartlyForcedSeq(old(Defaults()), Defaults(), ctx.runDelayed)
      ensures err.None? ==> Defaults() == ForceSeq(old(Defaults()), ctx.runDelayed)
    {
      ghost var pre := Defaults();
      var eval := ctx.runDelayed;
      var i := 0;
      while i < |Props|
        invariant 0 <= i <= |Props|
        invariant |pre| == |Props|
        invariant forall j :: 0 <= j < |Props| ==> pre[j] == old(Props[j].Default)
        invariant forall j :: 0 <= j < i ==> Evaluates(pre[j], eval)
        invariant forall j :: 0 <= j < |Props| ==>
          Props[j].Default == pre[j] || Props[j].Default == Force(pre[j], eval)
        invariant forall j :: 0 <= j < i ==> Props[j].Default == Force(pre[j], eval)
      {
        var p := Props[i];
        if p.Default.Deferred? {
          var z := eval(p.Default.expr);
          if z.Failure? {
            return Some(z.error);
          }
          p.Default := Concrete(z.value);
        }
        i := i + 1;
      }
      assert Defaults() == ForceSeq(pre, eval);
      return None;
    }

    /** Compiles every compilable method body of the (merged) method table, in unspecified order. */
    method CompileMethods(ctx: Context) returns (err: Option<Error>)
      ensures err.None? <==> AllCompile(Methods, ctx.compileCallable)
      ensures err.Some? ==> MethodFailure(Methods, ctx.compileCallable, err.value)
    {
      var todo := Methods.Keys;
      while todo != {}
        invariant todo <= Methods.Keys
        invariant forall n :: n in Methods && n !in todo && Methods[n].Method.compilable ==>
          ctx.compileCallable(Methods[n].Method).None?
        decreases todo
      {
        var n :| n in todo;
        var m := Methods[n];
        if m.Method.compilable {
          var e := ctx.compileCallable(m.Method);
          if e.Some? {
            return e;
          }
        }
        todo := todo - {n};
      }
      return None;
    }

    /** Whether `subc` is recorded as a parent of this class. */
    function InstanceOf(subc: ZClass?): (r: bool)
      reads this
      ensures ParentsInvariant() ==> (r ==> subc == Extends)
    {
      subc != null && subc in parents
    }

    /** The class name without its namespace: the part after the last backslash. */
    function BaseName(): (r: string)
      ensures '\\' !in Name ==> r == Name
      ensures '\\' in Name ==>
        |r| < |Name| && Name == Name[..|Name| - |r| - 1] + ['\\'] + r
      ensures '\\' !in r
    {
      var pos := LastIndexOf(Name, '\\');
      if pos == -1 then Name else Name[pos + 1..]
    }

    /**
     * The static-property table, created and seeded from the static
     * properties on the first call and returned as it is afterwards.
     */
    method GetStaticProps() returns (t: ZHashTable, err: Option<Error>)
      modifies this`StaticProps
      ensures err.None? && StaticProps == t
      ensures old(StaticProps) != null ==> t == old(StaticProps) && t.entries == old(StaticProps.entries)
      ensures old(StaticProps) == null ==> fresh(t) && t.entries == StaticSeed(PropDecls())
      ensures old(StaticProps) == null ==>
        (forall k :: k in KeysOf(t.entries) <==> DeclaresStatic(PropDecls(), k)) && Distinct(KeysOf(t.entries))
      ensures old(StaticProps) == null ==> forall k :: HoldsLastStatic(t.entries, PropDecls(), k)
      ensures old(StaticProps) == null && StaticNamesDistinct(PropDecls()) ==>
        t.entries == StaticEntries(PropDecls())
    {
      if StaticProps == null {
        var table := new ZHashTable();
        StaticProps := table;
        var i := 0;
        while i < |Props|
          invariant 0 <= i <= |Props|
          invariant StaticProps == table && fresh(table)
          invariant table.entries == StaticSeed(PropDecls()[..i])
        {
          var p := Props[i];
          assert PropDecls()[..i + 1][..i] == PropDecls()[..i];
          if !p.Modifiers.IsStatic() {
            i := i + 1;
            continue;
          }
          if p.Default == Nil {
            table.SetString(p.VarName, Concrete(Null));
            i := i + 1;
            continue;
          }
          table.SetString(p.VarName, p.Default);
          i := i + 1;
        }
        assert PropDecls()[..|Props|] == PropDecls();
        StaticSeedKeys(PropDecls());
        forall k ensures HoldsLastStatic(table.entries, PropDecls(), k) {
          StaticSeedFind(PropDecls(), k);
        }
        if StaticNamesDistinct(PropDecls()) {
          StaticSeedInOrder(PropDecls());
        }
      }
      return StaticProps, None;
    }
  }

  /** The index of the last occurrence of `c` in `s`, or -1 (strings.LastIndexByte). */
  function LastIndexOf(s: string, c: char): (r: int)
    ensures -1 <= r < |s|
    ensures r == -1 <==> c !in s
    ensures r >= 0 ==> s[r] == c && c !in s[r + 1..]
  {
    if s == [] then -1
    else if s[|s| - 1] == c then |s| - 1
    else
      assert s == s[..|s| - 1] + [s[|s| - 1]];
      LastIndexOf(s[..|s| - 1], c)
  }
}
