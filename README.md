# isuprof: call-site instrumentation core, modelled in Dafny

isuprof (`cmd/isuprof/main.go`) rewrites a Go `main` package for profiling. It handles every call whose callee is a function value:

- It hashes the callee's type into a 32-bit id. The registry is the `Hasher`, an open-addressing table with linear probing.
- It generates one wrapper function per id, named `_isuprofWrapperN`. The wrapper takes the original function as `a`, then its parameters `p0..`, and returns `r0..`. It starts a profile, forwards the call (spreading a variadic tail) and stops the profile with the results.
- It replaces the call `f(args)` with `_isuprofWrapperN(f, args...)`.

Type names in the wrappers are rendered with a qualifier built once for the whole package. It maps each import path to one local name. The names are collected first from `info.Defs`, which holds every import written with a name (`.` and `_` included), and then from `info.Implicits`, which holds every import written without one. So when any file of the package imports a path without a name, the package's own name wins. Go's unspecified map order decides only between different explicit names for the same path.

The project models that core in seven modules, one file each:

- `Wrappers` (`wrappers.dfy`): the `Option` and `Result` types used for the tool's fatal paths.
- `Text` (`text.dfy`):
  - decimal rendering of ids and indices (`strconv.Itoa`) and a reader for it;
  - `", "`-joined lists as written with `strings.Builder`, and a reader for them.
- `GoTypes` (`gotypes.dfy`):
  - the types of `go/types` as far as the tool looks into them: basic, named (with their type object), pointer, slice and signature types (with parameter and result names), and one `Composite` constructor for every other kind;
  - `types.Identical` as equality of shapes, a shape being the type with its parameter and result names dropped;
  - a type value (`types.Type` as an interface value) as a node identity plus its expression.
- `Qualifier` (`qualifier.dfy`): the qualifier closure of `newInfoResolver`.
- `Registry` (`registry.dfy`):
  - `Hasher`, `newHasher` and `Hash`, as a class whose two maps are updated in place;
  - a pure specification `GetOrCreate` on an explicit table;
  - the registry invariant `Consistent`: cached ids agree, no two slots hold identical types, and linear probing left no gap on the way to any occupant.
- `WrapperGen` (`wrappergen.dfy`):
  - `typeInfo`, `funcInfo` and its three renderers;
  - `resolveFuncInfo`;
  - the string-building closures of `generateWrapper`, each a method with its loop proved against a sequence function;
  - the wrapper as a structured function value;
  - `wrapperName`.
- `Rewrite` (`rewrite.dfy`):
  - the `astutil.Apply` callback in `main`, over a small syntax tree with the type-checker's `info.Types` as a map;
  - the walk in two modes (see Findings);
  - an `Instrumenter` class holding the hasher and `funcDecls`, with recursive methods proved against the walk.

Behaviours of the code that a reader might not expect, all modelled as the code has them:

- **Named types.** A named type is identical only to itself: `types.Identical` compares named types by their type object. So two named function types with the same structure get different ids. Unnamed signatures are compared structurally.
- **Parameter names.** `types.Identical` ignores parameter and result names, but `types.TypeString` prints them. Two signatures that differ only in names share an id, and share the wrapper generated for the first of them to be hashed; that wrapper's `a` parameter is written with the first one's names.
- **Dot imports.** A package imported with `.` is rendered unqualified, provided no file of the package imports the same path without a name (that import's name would win, as above). The code does not synthesise an alias.
- **Generation failure is fatal.** A function type the generator cannot resolve (`resolveFuncInfo` on a non-signature) stops the program with `log.Fatal`. The call is not left unrewritten with the run going on. The model's walk returns `Err(Generation(...))`.
- **Nested calls and `...`.** As written, calls nested directly in a rewritten call are not rewritten, and a call's `...` is dropped from its replacement. See Findings.

## Model

| member | source | states |
|---|---|---|
| Registry.ProbeFrom | cmd/isuprof/main.go:228-242 | the probing loop as a function: a match is an identical occupant, a free slot is empty; after 10000 collisions the probe is exhausted |
| Registry.GetOrCreate | cmd/isuprof/main.go:225-247 | `Hash` on an explicit table: a cached type returns its id; otherwise the probe's match or free slot is cached (and a free slot filled); a successful call leaves the type cached under the returned id, and a panic leaves the table unchanged |
| Text.NatToString | cmd/isuprof/main.go:208 | `strconv.Itoa` on a non-negative number: at least one digit, all digits, no leading zero |
| Qualifier.Qualify | cmd/isuprof/main.go:91-99 | the qualifier's policy: empty for the package itself or a "." import, the recorded local name for any other recorded path, and the package's own name otherwise |
| WrapperGen.TypeInfo.VariadicString | cmd/isuprof/main.go:32-34 | the type name with its first two characters replaced by "...": one character longer, starting with "..." |
| WrapperGen.SpreadLoop | cmd/isuprof/main.go:157-160 | the statement appending the last parameter's elements to `ps`, non-empty exactly for a variadic function |
| WrapperGen.WrapperName | cmd/isuprof/main.go:207-209 | "_isuprofWrapper" followed by the id in decimal |
| Rewrite.Callback | cmd/isuprof/main.go:316-333 | the callback at one node: an eligible call is hashed and, for a new id, its wrapper generated; it asks for a replacement exactly for eligible calls, and only they can fail |
| Rewrite.Walk | cmd/isuprof/main.go:314-336 | `astutil.Apply` with the callback before the children, callee first, then arguments in order; the walked node keeps its position, and only an eligible call is replaced |
| Rewrite.WalkList | cmd/isuprof/main.go:314-336 | the children walked left to right, threading the state and stopping at the first failure; one result per child |
| Registry.Succ | cmd/isuprof/main.go:240 | `hash++` on a uint32: the next id, wrapping 2^32-1 to 0 |
| Registry.Hasher.constructor | cmd/isuprof/main.go:217-223 | a new hasher has empty forward and backward maps and satisfies the registry invariant |
| Registry.Hasher.ProbeSlots | cmd/isuprof/main.go:228-242 | the probing loop ends exactly as the probe specification says: at the first identical occupant, at the first free slot, or in the panic after 10000 collisions |
| Registry.Hasher.Hash | cmd/isuprof/main.go:225-247 | keeps the invariant; the returned id and the new maps are those of `GetOrCreate` on the old maps |
| Registry.EmptyValid | cmd/isuprof/main.go:217-223 | the empty table satisfies the invariant |
| Registry.ProbeFacts | cmd/isuprof/main.go:229-242 | a probe from the hash ends at a slot holding an identical type, or at an empty slot, with every earlier slot a collision and at most 10000 steps taken; otherwise all 10001 slots examined are collisions |
| Registry.ProbeFindsIdentical | cmd/isuprof/main.go:229-235 | under the invariant, a probe for a type identical to some occupant ends at that occupant |
| Registry.FreeMeansNew | cmd/isuprof/main.go:231-244 | a probe that ends at a free slot means no occupant anywhere is identical to the type |
| Registry.InsertKeepsConsistent | cmd/isuprof/main.go:243-244 | writing a new type into the free slot its probe reached keeps the invariant |
| Registry.HashSound | cmd/isuprof/main.go:225-246 | the invariant holds after `Hash`; the returned id's occupant is identical to the type, and the type is cached under that id; a backward slot is written only when empty and never overwritten; a panic changes nothing |
| Registry.HashKeepsCache | cmd/isuprof/main.go:225-243 | `Hash` never changes an id already cached: it only adds to the forward map |
| Registry.ForwardAgreesIff | cmd/isuprof/main.go:225-246 | dedup over the whole table: under the invariant, two cached type values have the same id exactly when they are identical |
| GoTypes.Identical | cmd/isuprof/main.go:232 | `types.Identical` as the probe's identity test: equality of the two types once parameter and result names are dropped |
| GoTypes.IdenticalToShape | cmd/isuprof/main.go:232 | a type is identical to its own name-free shape, whatever the two type values |
| GoTypes.IdenticalIgnoresNames | cmd/isuprof/main.go:232 | the identity test of `Hash` treats signatures that differ only in parameter and result names as identical |
| Registry.HashFindsIdentical | cmd/isuprof/main.go:225-235 | dedup: a type identical to an occupant gets the occupant's id, whatever its type value, and the backward map does not change |
| Registry.HashMemo | cmd/isuprof/main.go:225-227 | memoisation: hashing the same type value again returns the same id and changes nothing |
| Registry.HashTwo | cmd/isuprof/main.go:225-246 | two types hashed in turn get the same id exactly when they are identical; identical types add no slot |
| Registry.HashPanicsIff | cmd/isuprof/main.go:236-239 | `Hash` panics exactly when the type is not cached and the 10001 slots from its hash on all hold non-identical types |
| Text.ParseNatToString | cmd/isuprof/main.go:208 | the decimal rendering of a number reads back as that number |
| Text.SplitJoin | cmd/isuprof/main.go:148-155 | a list of items without commas, joined with ", ", splits back into the same items |
| WrapperGen.VariadicOfSlice | cmd/isuprof/main.go:32-34 | `VariadicString` of the name of a slice type `[]T` is `...T` |
| WrapperGen.FuncParameters | cmd/isuprof/main.go:42-52 | the loop yields parameter `pi` with the type name of parameter i, in spread form for the last parameter of a variadic function |
| WrapperGen.FuncReturnTypes | cmd/isuprof/main.go:54-60 | the loop yields result `ri` with the type name of result i |
| WrapperGen.SpreadOnlyLast | cmd/isuprof/main.go:46-48 | a parameter's type is written with "..." exactly when it is the last parameter of a variadic function |
| WrapperGen.SimpleSignature | cmd/isuprof/main.go:62-84 | the builder loops produce "func(" + the parameter types joined by ", " + ") (" + the result types joined by ", " + ")" |
| WrapperGen.SignatureListsParameters | cmd/isuprof/main.go:62-84 | the simple signature lists the same types, in the same order, as the wrapper's parameters and results |
| WrapperGen.NumberedList | cmd/isuprof/main.go:149-155 | the numbered-name loop writes prefix0, prefix1, ... joined by ", " |
| WrapperGen.PsList | cmd/isuprof/main.go:144-156 | the `ps` closure writes the names of the non-variadic parameters joined by ", " |
| WrapperGen.PsNamesFixedParameters | cmd/isuprof/main.go:144-156 | the `ps` list reads back as exactly the names of the first n-1 parameters when variadic, or all n otherwise |
| WrapperGen.SpreadLoopWalksTail | cmd/isuprof/main.go:157-160 | the spreading loop is empty for a non-variadic function; otherwise it appends every element of the last parameter to `ps` |
| WrapperGen.AssignPrefix | cmd/isuprof/main.go:162-172 | the assignment prefix is empty without results; otherwise it is the result names joined by ", " and then " = " |
| WrapperGen.ForwardArgs | cmd/isuprof/main.go:173-186 | the forwarded argument list is the parameter names joined by ", ", with "..." appended exactly when variadic |
| WrapperGen.ForwardsEveryParameter | cmd/isuprof/main.go:173-186 | the forwarded arguments read back as exactly the wrapper's parameter names, in order |
| WrapperGen.StopArgs | cmd/isuprof/main.go:187-197 | `stopProfiling` gets the result names joined by ", " |
| WrapperGen.ResultsFlowThrough | cmd/isuprof/main.go:162-197 | the names assigned from the forwarded call and the names passed to `stopProfiling` are the wrapper's result names, in order |
| WrapperGen.Wrapper | cmd/isuprof/main.go:130-199 | the wrapper body has the eight statements of the template |
| WrapperGen.WrapperSignature | cmd/isuprof/main.go:132-141 | the wrapper takes `a` of the original type, then one parameter per parameter and one result per result, each carrying its position's type |
| WrapperGen.WrapperParamsDistinct | cmd/isuprof/main.go:138-139 | the wrapper's parameter names are pairwise distinct |
| WrapperGen.WrapperResultsDistinct | cmd/isuprof/main.go:57 | the wrapper's result names are pairwise distinct |
| WrapperGen.ResolveFuncInfo | cmd/isuprof/main.go:102-128 | the two filling loops yield the function's rendered type, its parameter and result type names and its variadic flag; a non-signature is an error |
| WrapperGen.ResolvedParameters | cmd/isuprof/main.go:102-128 | a resolved function is well formed; fixed parameters carry their rendered types, and a variadic tail is written "..." + its element type |
| WrapperGen.GenerateWrapper | cmd/isuprof/main.go:130-205 | the wrapper built from the closures is the generated wrapper of the type, or the error for a non-function |
| WrapperGen.WrapperNameRoundTrip | cmd/isuprof/main.go:207-209 | a wrapper name reads back as its id |
| WrapperGen.WrapperNameInjective | cmd/isuprof/main.go:207-209 | two ids have the same wrapper name exactly when they are equal |
| Qualifier.NewInfoResolver | cmd/isuprof/main.go:90-100 | the resolver's qualifier is the qualification policy at every package |
| Qualifier.UnqualifiedCases | cmd/isuprof/main.go:92-94 | the package itself, or a package imported with ".", is written unqualified |
| Qualifier.RecordedName | cmd/isuprof/main.go:95-97 | any other recorded import path is written with its recorded local name |
| Qualifier.DefaultName | cmd/isuprof/main.go:98 | an unrecorded package is written with its own name |
| Qualifier.QualifyEmptyIff | cmd/isuprof/main.go:90-100 | with non-empty recorded names, the qualifier is empty exactly in the unqualified cases, and it is never "." |
| Rewrite.CallbackSound | cmd/isuprof/main.go:316-333 | the callback rewrites exactly the eligible calls, and a skipped node changes nothing; a rewritten call's id is the one cached for the callee's type, its slot holds a type identical to the callee's, and the declared wrapper is the one generated for that slot's type, the first to get the id; a failure means an eligible call, with a panic exactly when hashing panicked; the one-wrapper-per-id invariant is kept |
| Rewrite.CallbackRecords | cmd/isuprof/main.go:323-326 | a wrapper is added only under an id that has none; declarations are never replaced; the declared ids grow by exactly the id returned |
| Rewrite.WalkKeepsRegistered | cmd/isuprof/main.go:314-336 | a whole walk keeps the hasher consistent and `funcDecls` holding, for exactly the registered ids, each id's generated wrapper |
| Rewrite.WalkGrows | cmd/isuprof/main.go:322-326 | a walk only adds declarations and cached ids, and changes none of them |
| Rewrite.ModesAgree | cmd/isuprof/main.go:315-336 | whether the walk enters the replaced node or its replacement changes neither the ids, the declarations nor the failures |
| Rewrite.EraseWalk | cmd/isuprof/main.go:327-333 | round trip: removing the wrappers from the rewritten tree gives back the original tree up to positions, `...` included; for the walk as written, on trees without `...` |
| Rewrite.RewriteShape | cmd/isuprof/main.go:322-333 | an eligible call becomes a call of `wrapperName(id)`; its 1 + n arguments erase to the callee followed by the original arguments in order, with `...` where the call had it; the id is the one cached for the callee's type; its slot holds a type identical to the callee's, and the wrapper declared under the id is the one generated for that slot's type |
| Rewrite.WrapsEveryEligibleCall | cmd/isuprof/main.go:315-336 | walking the replacement, the output holds one wrapper call per eligible call of the input |
| Rewrite.CalledAreDeclared | cmd/isuprof/main.go:322-333 | in either mode, every wrapper the output calls is declared in `funcDecls` |
| Rewrite.DeclaredExactlyCalled | cmd/isuprof/main.go:323-326 | walking the replacement, the ids that gain a declaration are exactly the ids the output calls that had none: one definition per distinct id used |
| Rewrite.AsWrittenMissesNested | cmd/isuprof/main.go:327-335 | for `either(true)()`, with callee types `func()` and `func(b bool) func()`, the walk as written yields `_isuprofWrapper2(either(true))`: one wrapper call for two eligible calls, and wrapper 1 declared but never called; walking the replacement wraps both |
| Rewrite.AsWrittenDropsSpread | cmd/isuprof/main.go:327-333 | for `g(ys...)` with `g` of type `func(xs ...int)`, the pass as written yields `_isuprofWrapper7(g, ys)`, passing the slice to the wrapper's `p0 ...int` without `...`, and erasing it does not give the call back; copying `...` gives `_isuprofWrapper7(g, ys...)`, which does |
| Rewrite.Instrumenter.constructor | cmd/isuprof/main.go:311-312 | the pass starts with a fresh hasher and no declarations, satisfying the invariant |
| Rewrite.Instrumenter.Pre | cmd/isuprof/main.go:316-333 | the callback method's result and new state are those of the callback specification; the invariant is kept on success |
| Rewrite.Instrumenter.Visit | cmd/isuprof/main.go:315-336 | visiting a subtree yields the walk's slot content and node and its new state, or its failure |
| Rewrite.Instrumenter.VisitList | cmd/isuprof/main.go:315-336 | visiting a list of children does the same for each child in order, stopping at the first failure |
| Rewrite.Instrumenter.Run | cmd/isuprof/main.go:314-336 | in either mode, the loop over the files rewrites each in turn as the walk does, threading the hasher and `funcDecls`, and stops at the first fatal error |

## Left out

- Command line, reading the directory, writing `build/` files, and the generated definitions file `isuprof_generated.go` (main.go:250-262, 337-344, 346-383). This is I/O with no behaviour to state.
- Parsing and type checking (main.go:263-286). They are a foreign front-end. The model takes `info.Types` as a map from callee expressions to a type and an is-value flag. `types.Identical` is equality of shapes.
- Basic types are identified by one kind string, which is also how they are spelled. Go's aliases `byte`/`uint8` and `rune`/`int32` are identical but printed differently; the model gives each alias pair one spelling.
- Array, map, channel, struct and interface types, and signatures with receivers or type parameters, are not spelled out: they are all `Composite`, compared by a kind text and their element types. Go's own identity rules for them (for example, interface method sets compared regardless of order) are assumed to be folded into the kind text.
- Building `pathToName` from `info.Defs` and `info.Implicits` (main.go:288-300). The map is a parameter of the qualifier.
- `typeutil.Hasher.Hash`. A function from type expressions to 32-bit ids is a parameter of the hasher, applied to a type's shape. So it agrees on identical types, as the real hasher does.
- `types.TypeString`. It is a parameter. The only thing assumed of it is that a slice type `[]T` is written "[]" followed by `T`, which is what `VariadicString` relies on.
- The gowrtr builder, its `Generate(0)` error path, `Goimports`/`Gofmt` and `format.Node` (main.go:132-141, 200-204, 304-309, 338). The wrapper is produced as a structured value (name, parameters, results, body statements) instead of text. `funcDecls` holds these values, not strings.
- The emission of the definitions file (main.go:346-373). The profiler payload is constant text. The imports are written from `pathToName`, one `import <name> "<path>"` per entry, and the definitions from `funcDecls`, both in Go's unspecified map order.
- The order of files. `pkgs["main"].Files` is a Go map, so files are visited in an unspecified order. `Rewrite.Instrumenter.Run` takes them in the order given.
- Syntax nodes other than identifiers, literals and calls. They are all `Node` with their children in walking order. The `Obj` of the wrapper identifier is not modelled.
- `info.Types` is keyed by node pointer. The model keys it by node value, positions included, so two nodes at different positions are distinct keys.
- Rewrite.EraseWalk: for the walk as written, the round trip is stated only for trees with no `...` call, because the pass as written drops `...` (Findings).
- Rewrite.RewriteShape: for the walk as written, stated only for calls with no `...` call inside, for the same reason.
- WrapperGen.WrapperName: renders the id as a non-negative decimal, as `strconv.Itoa(int(hash))` does where `int` has 64 bits. On a 32-bit target, ids of 2^31 and more would be written negative; that case is not modelled.
- The demonstration source in main.go:386-453. It is test data.

## Findings

| source | as written | input that shows it | evidently intended | confidence | as-written member | corrected member |
|---|---|---|---|---|---|---|
| cmd/isuprof/main.go:327-335 | The callback replaces the call through the cursor and returns true. `astutil.Apply` then walks the children of the node it was given, not the replacement, which the documentation of `Cursor.Replace` says is not walked. A rewritten call's own callee and arguments are therefore rewritten inside the discarded node. The replacement keeps the old, unrewritten children. | `either(true)()`, with `either` of type `func(b bool) func()`, becomes `_isuprofWrapper2(either(true))` (ids as in the model's example). The wrapper generated for `either`'s type is declared but never called. | Every eligible call is wrapped: `_isuprofWrapper2(_isuprofWrapper1(either, true))`. | not executed; relies on the documented walking order of `astutil.Apply` | Rewrite.AsWrittenMissesNested | Rewrite.WrapsEveryEligibleCall |
| cmd/isuprof/main.go:327-333 | The replacement call is built from the callee and the arguments only; the original call's `Ellipsis` is not copied. | `g(ys...)`, with `g` of type `func(xs ...int)` and `ys` an `[]int`, becomes `_isuprofWrapper7(g, ys)`. The slice is passed as one element of the wrapper's `p0 ...int`, which Go rejects; with an element type such as `interface{}` it compiles and forwards a one-element list holding the slice. | `_isuprofWrapper7(g, ys...)`, which forwards the same arguments. | not executed; follows from the Go rules for passing arguments to a `...` parameter | Rewrite.AsWrittenDropsSpread | Rewrite.EraseWalk |
