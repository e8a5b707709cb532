# goro class descriptor, modelled in Dafny

This project models the class descriptor of goro, a PHP-compatible runtime
written in Go: the `ZClass` record with its properties (`ZClassProp`) and
methods (`ZClassMethod`), and the operations that turn a declared class into
a compiled one.

- `Run` registers the class with the global registry, then compiles it. A
  failed registration means the compile never runs.
- `compile` resets the parent set and looks up the parent name. It records the
  parent in `Extends` and `parents`, then merges the parent's methods into the
  local table without overwriting local ones. Inherited methods are shared
  objects, not copies. It then forces every deferred (`compileDelayed`)
  constant and property default and compiles each compilable method body. The
  first failure is returned at once.
- `InstanceOf` tests membership in `parents`.
- `BaseName` strips the namespace: everything up to the last backslash.
- `getStaticProps` creates the static-property table on the first call,
  seeded from the static properties in declaration order, and returns the same
  table on every later call.

Layout:

- `wrappers.dfy`: module `Wrappers` with `Option` and `Result`.
- `values.dfy`: module `Values` with values, errors and the forcing of
  deferred values.
- `hashtable.dfy`: module `HashTable`. The ordered table `ZHashTable` is
  modelled as a sequence of entries.
- `zclass.dfy`: module `ZClasses` with the three records as classes, the
  collaborator `Context` and all the operations.

The collaborators are fields of the `Context` datatype. Each is a
deterministic function that may fail: `registerClass` (`RegisterClass`),
`getClass` (`GetClass`), `runDelayed` (`compileDelayed.Run`) and
`compileCallable` (the `compile` of a `compilable` method body).

Go ranges over maps in an unspecified order. The loops over the constant
table and the method table therefore pick their next key by a
nondeterministic choice (`:|`), and nothing is claimed that depends on the
order. The property loop runs in declaration order, as in the source.

The loop check at core/zclass.go:62 tests a map that was emptied at line 54.
The model keeps the check, and the verifier proves the branch is never taken:
it has to, because `LinkParent`'s contract says a successful lookup always
links the parent. The source never resolves `ImplementsStr` (the TODO at line
102). So `Implements` is never written and `parents` holds at most the direct
parent. `ParentsInvariant` states this, and `Compile` and `Run` keep it.

`compile` resolves no interfaces, keeps no transitive ancestor set, detects
no cycles and no circular constants, and marks no failed resolution.
Re-running it resets `parents` and runs every phase again. `getStaticProps`
does not wait for defaults to be resolved. It stores whatever a property's
`Default` holds at the time of the first call, which may still be a deferred
value.

## Model

| member | source | states |
|---|---|---|
| ZClasses.ZClassProp.constructor | core/zclass.go:10-14 | A property holds its name, its default and its modifiers. |
| ZClasses.ZClassMethod.constructor | core/zclass.go:16-20 | A method holds its name, its modifiers and its body. |
| ZClasses.ZClass.constructor | core/zclass.go:22-43 | A new descriptor holds the declared shape, with no parents, no `Extends`, no static table, and the parents invariant holding. |
| ZClasses.ZClass.Run | core/zclass.go:45-51 | A failed registration returns its error and leaves the class untouched. Otherwise the result and the new state are those of a compile (`CompileSpec`), and the parents invariant is kept. |
| ZClasses.ZClass.Compile | core/zclass.go:53-104 | The new state and the error satisfy `CompileSpec`: the phases run in order and the first failure ends the compile. A failure part-way leaves every constant and default either unchanged or forced. Afterwards `parents` holds nothing or exactly the direct parent. With no parent name, `InstanceOf` is false for every argument. With a parent that resolves, `InstanceOf(x)` holds exactly when `x` is `Extends`. |
| ZClasses.ZClass.LinkParent | core/zclass.go:54-74 | `parents` is reset. With no parent name, `Extends` and `Methods` are untouched. A failed lookup returns its error and changes nothing else. A successful lookup sets `Extends` to the parent and `parents` to exactly that parent, and makes `Methods` the merge of the old local table with the parent's table. The loop check never fires. |
| ZClasses.MergeMethods | core/zclass.go:69-73 | The merged domain is the local domain united with the parent's domain. Every local name keeps its own method object. Every name declared only in the parent maps to the parent's own object. |
| ZClasses.ZClass.ForceConstants | core/zclass.go:76-84 | The constant table keeps its keys, and every constant is either unchanged or forced, so a constant that was not deferred never changes. It succeeds exactly when every deferred constant evaluates, and then the table is the forced table. On failure the error is that of some deferred constant's failed evaluation. |
| ZClasses.ZClass.ForceDefaults | core/zclass.go:85-93 | Every default is either unchanged or forced, so a default that was not deferred never changes. The error is that of the first property, in declaration order, whose deferred default fails to evaluate. Without a failure every default is forced in place, and this holds even when one property object appears twice. |
| ZClasses.ZClass.CompileMethods | core/zclass.go:94-101 | Succeeds exactly when every compilable body of the merged method table compiles. On failure the error is that of one such body. |
| Values.Force | core/zclass.go:77-82 | A value that is not deferred is unchanged. A deferred value that evaluates becomes the evaluated result. The forced value is deferred only when its evaluation failed. |
| Values.ForceMap | core/zclass.go:76-84 | Forcing keeps the constant table's keys and leaves non-deferred constants unchanged. Each deferred constant that evaluates is replaced by its result. When all evaluate, no deferred constant remains. |
| Values.ForceSeq | core/zclass.go:85-93 | Forcing keeps the number of defaults and leaves non-deferred ones unchanged. Each deferred default that evaluates is replaced by its result. When all evaluate, no deferred default remains. |
| Values.FirstFailure | core/zclass.go:85-93 | None exactly when every deferred default evaluates. Otherwise it gives the error of a failing deferred default with no failing one before it. |
| ZClasses.CompileSucceedsIff | core/zclass.go:53-104 | A compile succeeds exactly when the parent name is empty or resolves, every deferred constant and default evaluates, and every compilable method compiles. |
| ZClasses.CompileFailureOrigin | core/zclass.go:58-99 | A failed compile's error comes from the parent lookup, some deferred constant, the first failing default, or some method compile. |
| ZClasses.CompiledClass | core/zclass.go:54-93 | After a successful compile no constant and no default is deferred. Local methods are unchanged. Inherited methods are the parent's objects. `parents` is empty without a parent name and exactly the parent with one. |
| ZClasses.ZClass.InstanceOf | core/zclass.go:106-109 | While the parents invariant holds, `InstanceOf(x)` implies that `x` is the direct parent `Extends`. |
| ZClasses.LastIndexOf | core/zclass.go:123 | Returns -1 exactly when the character does not occur. Otherwise it returns a position holding the character with no occurrence after it. |
| ZClasses.ZClass.BaseName | core/zclass.go:121-128 | A name without a backslash is returned unchanged. Otherwise the result is the suffix after the last backslash: `Name` is a prefix, a backslash, then the result. The result never contains a backslash. |
| ZClasses.ZClass.GetStaticProps | core/zclass.go:130-145 | It never returns an error and always returns the cached table. On a later call it returns the same table, with its entries as they were. On the first call it returns a fresh table seeded from the properties (`StaticSeed`). That table's keys are exactly the static property names, each once. Each key holds the initial value (NULL for a nil default, the default otherwise) of the last static property of that name, because a later `SetString` overwrites an earlier one. When static names are distinct, the table holds one entry per static property in declaration order. |
| ZClasses.StaticSeedKeys | core/zclass.go:133-142 | The seeded table's keys are exactly the names of the static properties, with no key twice. |
| ZClasses.StaticSeedFind | core/zclass.go:133-142 | For every input, including two static properties of the same name, a key reads back the initial value of the last static property of that name. A name that no static property has is absent. |
| ZClasses.StaticSeedInOrder | core/zclass.go:133-142 | With distinct static names, the seeded table equals the reference table: one entry per static property, in declaration order. |
| HashTable.ZHashTable.constructor | core/zclass.go:132 | A new table is empty. |
| HashTable.ZHashTable.SetString | core/zclass.go:138-141 | Storing a key overwrites it in place if present and appends it otherwise (the assumed table semantics). |
| HashTable.Put | core/zclass.go:138-141 | Storing an existing key keeps the key sequence. Storing a new key appends exactly one entry. |
| HashTable.PutFind | core/zclass.go:138-141 | After storing `v` under `k`, `k` reads back `v` and every other key reads back what it held. |
| HashTable.PutKeys | core/zclass.go:138-141 | Storing adds exactly its key to the key set, and keys stay distinct. |

## Left out

- `ZClass.Dump` (core/zclass.go:111-119) writes to an `io.Writer`, and its body is a TODO. Output is not modelled.
- cli.go is the process entry point that loads and runs a script file. It is pure I/O.
- The fields `l` (`*Loc`), `Type`, `attr` and `HandleInvoke` are not read or written by the modelled operations, so they are omitted.
- The registry internals (`Context.Global()`, `RegisterClass`, `GetClass`) are not modelled. `registerClass` and `getClass` are independent functions, so a registration does not change what a later lookup returns.
- `compileDelayed.Run` is a pure function of the deferred expression's identity. It does not see constants that were forced earlier in the same compile, and it has no memoisation or cycle detection of its own.
- The `compile` of a method body is modelled as an outcome only. Whatever it does to the body is not modelled.
- `ZHashTable` internals are not modelled. The table is a sequence of entries, and overwrite-on-duplicate is an assumption.
- ZClasses.ZClass.ForceConstants: on failure it says only that each constant is unchanged or forced, not which ones were already replaced, because Go's map order is unspecified.
- ZClasses.ZClass.ForceDefaults: on failure it says only that each default is unchanged or forced, not which ones were already replaced.
- ZClasses.ZClass.CompileMethods: on failure it does not say which method produced the error, only that some compilable one did, because Go's map order is unspecified.
- ZClasses.ZClass.InstanceOf: its contract is stated under the parents invariant that every constructor and compile establishes.
- ZClasses.ZClass.Run, ZClasses.ZClass.Compile and ZClasses.ZClass.LinkParent require the class returned by the lookup to be allocated already. This always holds of Go pointers. Dafny needs it stated to read the parent's method table in the pre-state.
- Names are `seq<char>`, whereas the source searches bytes with `strings.LastIndexByte`. In UTF-8 the byte of `\` never occurs inside another character, so the results agree.
- The `ctx` argument of `getStaticProps` is unused in the source, so it is dropped.
- The `Constructor` field is declared but never assigned by the modelled code, so it stays as it was.
