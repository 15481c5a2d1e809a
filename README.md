# Lifetime-contract extraction, modelled in Dafny

This project models how Clang's lifetime analysis reads a `lifetime(lhs, {rhs...})`
annotation and turns it into a lifetime contract: a map from an abstract memory
location to the set of locations its pointee may point at.

There are two modules, one per core file.

- `LifetimeAttr` (`lifetime_attr.dfy`) models `LifetimeContractVariable`.
  - A variable is a base and a chain. The base is one of the tags `Global`, `Null`,
    `Invalid`, `This(record)`, `Return` or `Param(index)`. The chain is a list of
    dereferences and field accesses.
  - The module models the factories, `operator==`, `operator<`, `deref(n)`,
    `addFieldRef` and `dump`.
  - `ObjectLifetimeSet` becomes `PSet`, a `set<Variable>`. `LifetimeContracts` becomes
    `Contracts`, a `map<Variable, PSet>`.
  - `RecordDecl *` and `FieldDecl *` are natural numbers. They are ordered the way
    `std::less` orders the pointers. A dereference is the null entry, so it sorts
    below every field.
- `ProcessLifetimeContracts` (`process_lifetime_contracts.dfy`) models the extractor.
  - `ignoreReturnValues` peels wrapper nodes.
  - `collectPSet`, with its `processArgs` lambda, resolves `this`, the sentinel names,
    parameters, `deref(...)` and set literals. It takes an optional lookup map.
  - `fillContractFromExpr` checks the `lifetime` call and commits one entry into a
    caller-owned map.
  - The Clang expression tree is the `Expr` datatype. It keeps only the node kinds the
    extractor distinguishes, each with its source range. `InvalidRange` is the
    default-constructed range that signals success.

Each loop of the C++ code is a method with its loop, proved against a specification
function:

| method | specification |
|---|---|
| `DerefBy` | its postcondition |
| `LessThan` | `Less` |
| `Dump` | `Rendered` |
| `IgnoreReturnValues` | `Canonicalize` |
| `CollectPSet` and `ProcessArgs` | `Collect` and `CollectArgs` |
| `DerefEach` (the loop of the `deref` branch) | `DerefAll` |
| `FillContractFromExpr` | `Fill` |

`FillContractFromExpr` updates a `ContractMap` object in place, as the C++ code updates
`Fill`. The lemmas are stated over the specification functions.

Behaviours of the code worth knowing, which the model keeps:

- Sentinel names.
  - The code recognises exactly `Null`, `Static`, `Invalid` and `Return`
    (clang/lib/AST/LifetimeAttr.cpp:51-58). `Global` is not a sentinel name.
  - The annotation test names them `gsl::null`, `gsl::global` and `gsl::invalid`.
    Those are not the names the code matches, and that test file is marked as not run.
- The left-hand side may be a sentinel. The code only checks that the left-hand set
  has one element (clang/lib/AST/LifetimeAttr.cpp:141), so `lifetime(Null, {a})`
  commits an entry keyed on the null sentinel.
- Failures with an invalid range.
  - A failure is reported only through the failing node's source range.
  - If that range is itself invalid, no error reaches the caller. The right-hand side
    then commits the empty set (clang/lib/AST/LifetimeAttr.cpp:147-150).
  - The model keeps this behaviour. `FillSucceeds` therefore assumes that every range
    in the tree is valid.
- Argument counts. The code reads `getArg(0)` and `getArg(1)` without an arity check
  (clang/lib/AST/LifetimeAttr.cpp:27, :82, :132, :135). In the model these accesses
  are preconditions (`ArgsPresent`, `FillArgsPresent`) on every node the extractor
  may visit. That is more than it visits on a given run: see `ArgsPresent` under
  "## Left out". The arguments of a call other than `deref` are never visited, so
  nothing is required of them.
- `collectPSet` is only ever called on a node `ignoreReturnValues` returned
  (clang/lib/AST/LifetimeAttr.cpp:82, :93, :140, :147). `Collect` and `CollectPSet` are
  therefore defined on peeled nodes (`IsCanonical`), where a constructor is always a
  `PSet` constructor.

## Model

| member | source | states |
|---|---|---|
| LifetimeAttr.FactoryOrder | clang/include/clang/AST/LifetimeAttr.h:37-51 | `globalVal`, `nullVal`, `invalid`, `thisVal`, `returnVal` and a parameter have empty chains and sort in that order as set and map keys |
| LifetimeAttr.ThisValOrder | clang/include/clang/AST/LifetimeAttr.h:37-39 | two `thisVal` variables are equal exactly when their records are, and ordered as their records |
| LifetimeAttr.ParamValOrder | clang/lib/AST/LifetimeAttr.cpp:66-70 | two parameter variables with no chain (`ContractVariable(PVD)`) are equal exactly when their indices are, and ordered as their indices |
| LifetimeAttr.DerefOnce | clang/lib/AST/LifetimeAttr.cpp:86 | `Var.deref()` with its default count keeps the base and the old chain, and appends exactly one dereference marker |
| LifetimeAttr.ParamBasedVal | clang/include/clang/AST/LifetimeAttr.h:33-36 | `paramBasedVal(p, k)` is a `Param` variable for index `p` whose chain is exactly `k` dereference markers |
| LifetimeAttr.DerefBy | clang/include/clang/AST/LifetimeAttr.h:101-105 | `deref(n)` keeps the base and the old chain as a prefix, and appends exactly `n` dereference markers |
| LifetimeAttr.AddFieldRef | clang/include/clang/AST/LifetimeAttr.h:99 | `addFieldRef(f)` keeps the base and the old chain, and appends exactly one entry `Field(f)` |
| LifetimeAttr.EqualIsStructural | clang/include/clang/AST/LifetimeAttr.h:53-63 | `operator==` (tag, then chain, then index for `Param` or record for `This`) holds exactly when the two variables are identical |
| LifetimeAttr.LessThan | clang/include/clang/AST/LifetimeAttr.h:69-86 | the iterator loop of `operator<` returns the same answer as the order `Less` |
| LifetimeAttr.ChainLessIrreflexive | clang/include/clang/AST/LifetimeAttr.h:81-85 | no chain is below itself in the pointwise comparison |
| LifetimeAttr.ChainLessAsymmetric | clang/include/clang/AST/LifetimeAttr.h:81-85 | the pointwise chain comparison is asymmetric |
| LifetimeAttr.ChainLessTransitive | clang/include/clang/AST/LifetimeAttr.h:81-85 | the pointwise chain comparison is transitive |
| LifetimeAttr.ChainLessConnected | clang/include/clang/AST/LifetimeAttr.h:81-85 | of two different chains of equal length, one is below the other |
| LifetimeAttr.LessIrreflexive | clang/include/clang/AST/LifetimeAttr.h:69-86 | `operator<` is irreflexive |
| LifetimeAttr.LessTransitive | clang/include/clang/AST/LifetimeAttr.h:69-86 | `operator<` is transitive |
| LifetimeAttr.LessTrichotomy | clang/include/clang/AST/LifetimeAttr.h:69-86 | exactly one of `a < b`, `b < a`, `a == b` holds, so `std::set` and `std::map` treat `==` variables as the same key |
| LifetimeAttr.ChainLessIsLex | clang/include/clang/AST/LifetimeAttr.h:81-85 | the chain loop is the lexicographic order on entry addresses, with a dereference as address 0; chains are equal iff their addresses are |
| LifetimeAttr.LessIsLexOnKey | clang/include/clang/AST/LifetimeAttr.h:70-85 | `operator<` is the lexicographic order on the key (tag rank `Global < Null < Invalid < This < Return < Param`, chain length, index or record, chain entries); variables are equal iff their keys are |
| LifetimeAttr.ChainLessExtend | clang/include/clang/AST/LifetimeAttr.h:81-85 | appending the same entry to two equal-length chains keeps their order in both directions |
| LifetimeAttr.DerefPreservesOrder | clang/include/clang/AST/LifetimeAttr.h:101-105 | one more dereference keeps `operator<` in both directions and is injective, so dereferencing a set keeps its size |
| LifetimeAttr.ExtensionIsGreater | clang/include/clang/AST/LifetimeAttr.h:72-73 | a variable is below its own extension by `deref` or `addFieldRef`, and the two extensions differ |
| LifetimeAttr.Dump | clang/include/clang/AST/LifetimeAttr.h:107-136 | the text `dump` builds entry by entry equals the rendering `Rendered` |
| LifetimeAttr.RenderBases | clang/include/clang/AST/LifetimeAttr.h:109-125 | `Null`, `Global` and `Invalid` render as "null", "global" and "invalid" whatever their chain; with no chain, `this`, the return value and a parameter render as "this", "(return value)" and the parameter's name |
| LifetimeAttr.RenderMarkers | clang/include/clang/AST/LifetimeAttr.h:127-134 | `k` dereferences of a base render as `k` stars before the base name |
| LifetimeAttr.RenderCounts | clang/include/clang/AST/LifetimeAttr.h:127-134 | each dereference adds exactly one '*' and each field exactly one '.' to the rendering |
| LifetimeAttr.RenderParentheses | clang/include/clang/AST/LifetimeAttr.h:128-131 | on top of the base's own parentheses (those of "(return value)"), exactly one '(' and one ')' are added for each field that directly follows a dereference, and no others |
| LifetimeAttr.RenderDerefParam | clang/include/clang/AST/LifetimeAttr.h:122-133 | a parameter dereferenced once renders as '*' followed by the parameter's name |
| LifetimeAttr.RenderExamples | clang/include/clang/AST/LifetimeAttr.h:127-134 | `(*c).f`, `*c.f`, `*(return value)`, and "null" for a null sentinel with a chain |
| ProcessLifetimeContracts.IgnoreImplicit | clang/lib/AST/LifetimeAttr.cpp:22 | stripping implicit wrappers leaves a node that is not implicit, is strictly smaller than a wrapped input, is the input itself otherwise, and does not change the final peel |
| ProcessLifetimeContracts.Canonicalize | clang/lib/AST/LifetimeAttr.cpp:18-35 | the peel result is canonical: not implicit, not a non-`PSet` constructor, not a conversion call. It is the input itself when that is already canonical and strictly smaller otherwise. Its ranges are ranges of the input |
| ProcessLifetimeContracts.CanonicalizeIdempotent | clang/lib/AST/LifetimeAttr.cpp:18-35 | peeling a peeled node returns it unchanged |
| ProcessLifetimeContracts.IgnoreReturnValues | clang/lib/AST/LifetimeAttr.cpp:18-35 | the do-while loop stops, with the peel `Canonicalize` of its input |
| ProcessLifetimeContracts.CollectPSet | clang/lib/AST/LifetimeAttr.cpp:39-106 | on success it returns the set `Collect` denotes and leaves `FailRange` as it was; on failure it returns the empty set and the failing node's range |
| ProcessLifetimeContracts.ProcessArgs | clang/lib/AST/LifetimeAttr.cpp:89-99 | the accumulating loop with early return computes `CollectArgs`, with the same set and `FailRange` contract as `CollectPSet` |
| ProcessLifetimeContracts.SentinelResolution | clang/lib/AST/LifetimeAttr.cpp:44-64 | a variable named `Null`, `Static`, `Invalid` or `Return` (and no other name) yields the singleton null, global, invalid or return-value set; a reference to a non-variable, whatever its name, and a variable that is neither a sentinel nor a parameter fail at their own range |
| ProcessLifetimeContracts.ParamResolution | clang/lib/AST/LifetimeAttr.cpp:59-71 | a parameter yields the set stored for it in the lookup map when there is one, and the singleton of the parameter otherwise |
| ProcessLifetimeContracts.DerefEach | clang/lib/AST/LifetimeAttr.cpp:83-86 | the clear-and-insert loop yields exactly the copied set with every element dereferenced once |
| ProcessLifetimeContracts.DerefAllSize | clang/lib/AST/LifetimeAttr.cpp:83-87 | dereferencing every element of a set keeps its size |
| ProcessLifetimeContracts.DerefCollect | clang/lib/AST/LifetimeAttr.cpp:75-88 | `deref(x)` fails where `x` fails; otherwise it is exactly the set of `v` dereferenced once for `v` in `x`'s set (sentinels included), of the same size |
| ProcessLifetimeContracts.CollectArgsUnion | clang/lib/AST/LifetimeAttr.cpp:89-103 | when no argument yields an empty set, a set literal is exactly the union of its arguments' sets |
| ProcessLifetimeContracts.CollectArgsStops | clang/lib/AST/LifetimeAttr.cpp:91-95 | the first argument that fails or yields the empty set decides the result (its failure, or the empty set); later arguments are not looked at |
| ProcessLifetimeContracts.CollectFailsInside | clang/lib/AST/LifetimeAttr.cpp:39-106 | a failure is reported at the range of a node of the expression itself |
| ProcessLifetimeContracts.CollectArgsFailsInside | clang/lib/AST/LifetimeAttr.cpp:89-99 | a failing set literal reports the range of a node inside one of its arguments |
| ProcessLifetimeContracts.CollectDerefChains | clang/lib/AST/LifetimeAttr.cpp:39-106 | with a lookup map whose sets hold only dereference chains, every collected variable has a chain of dereferences only (the extractor never adds a field) |
| ProcessLifetimeContracts.CollectArgsDerefChains | clang/lib/AST/LifetimeAttr.cpp:89-99 | the same for the elements of a set literal |
| ProcessLifetimeContracts.CollectEmptyLookup | clang/lib/AST/LifetimeAttr.cpp:65-70 | collecting with an empty lookup map is the same as collecting with none |
| ProcessLifetimeContracts.CollectArgsEmptyLookup | clang/lib/AST/LifetimeAttr.cpp:89-99 | the same for set literals |
| ProcessLifetimeContracts.Fill | clang/lib/AST/LifetimeAttr.cpp:117-152 | when an error range is returned the map is unchanged; in every case at most one key is changed |
| ProcessLifetimeContracts.FillContractFromExpr | clang/lib/AST/LifetimeAttr.cpp:117-152 | the returned range and the new map are those of `Fill` applied to the old map |
| ProcessLifetimeContracts.FillErrorInside | clang/lib/AST/LifetimeAttr.cpp:118-149 | a returned error range is the range of a node of the annotation |
| ProcessLifetimeContracts.FillSucceeds | clang/lib/AST/LifetimeAttr.cpp:139-151 | when every range is valid, the call succeeds exactly when the callee is `lifetime`, the left side yields one variable and the right side yields a set. On success the map is the old one with the left variable set to the right set |
| ProcessLifetimeContracts.FillKeepsDerefChains | clang/lib/AST/LifetimeAttr.cpp:146-150 | a map holding only dereference chains keeps that property after a fill |
| ProcessLifetimeContracts.FillCommits | clang/lib/AST/LifetimeAttr.cpp:146-151 | a `lifetime` call whose left side is the single variable `key` sets `key` to the right side's set, replacing any earlier value, and leaves every other key and value unchanged |
| ProcessLifetimeContracts.SingletonLiteral | clang/lib/AST/LifetimeAttr.cpp:89-103 | `{x}` denotes `x`'s set when that is not empty |
| ProcessLifetimeContracts.PairLiteral | clang/test/Sema/attr-psets-annotation.cpp:52-54 | `{x, y}` denotes the union of the two sets when neither is empty |
| ProcessLifetimeContracts.DerefCall | clang/lib/AST/LifetimeAttr.cpp:75-88 | `deref(x)` denotes `x`'s set with every element dereferenced once |
| ProcessLifetimeContracts.SimpleAnnotation | clang/test/Sema/attr-psets-annotation.cpp:43-44 | `lifetime(b, {a})` records `b -> {a}` |
| ProcessLifetimeContracts.ChainedAnnotations | clang/test/Sema/attr-psets-annotation.cpp:65-68 | `lifetime(b, {a})` then `lifetime(c, {b})` records `b -> {a}` and `c -> {a}` |
| ProcessLifetimeContracts.LaterAnnotationReplaces | clang/lib/AST/LifetimeAttr.cpp:150 | `lifetime(b, {a})` then `lifetime(b, {c})` leaves `b -> {c}`: the later entry replaces the earlier one |
| ProcessLifetimeContracts.TwoElementLeftSideFails | clang/lib/AST/LifetimeAttr.cpp:140-142 | `lifetime({a, b}, {c})` fails at the left side's range and leaves the map unchanged |
| ProcessLifetimeContracts.MalformedElementIsIsolated | clang/lib/AST/LifetimeAttr.cpp:147-149 | `lifetime(b, {a, f()})` fails at the range of `f()` and leaves the map unchanged |
| ProcessLifetimeContracts.UnsupportedNodes | clang/lib/AST/LifetimeAttr.cpp:75-80 | a call whose callee is not `deref`, an unresolved call and any other node kind fail (`Failed`, which stands for the empty set plus the fail range) at their own range, whatever their arguments (the fallback at :104-105) |
| ProcessLifetimeContracts.NotALifetimeCall | clang/lib/AST/LifetimeAttr.cpp:118-129 | an expression that is not a call of `lifetime` (resolved or unresolved) is rejected at its own range and the map is unchanged |
| ProcessLifetimeContracts.UnsupportedCallElement | clang/lib/AST/LifetimeAttr.cpp:75-79 | `lifetime(b, {f(X())})` fails at the range of `f(X())` and leaves the map unchanged; the arguments of `f` are never looked at |
| ProcessLifetimeContracts.DerefLeftSide | clang/test/Sema/attr-psets-annotation.cpp:70-72 | `lifetime(deref(c), {a})` records the one-dereference chain of `c` mapped to `{a}`, and that key renders as `*c` |

## Left out

- In-place mutation of `LifetimeContractVariable`.
  - `deref` and `addFieldRef` change the variable they are called on. Here they return
    a new value (`DerefBy`, `DerefOnce`, `AddFieldRef`).
  - This is safe because no core code keeps a second reference to a variable it
    extends: `collectPSet` dereferences copies taken out of a set.
- `operator!=` and the `is*` predicates. They are the negation of `Equal` and the
  discriminators of `Base` (`v.base.This?` and so on), so they have no members of their
  own.
- `asParmVarDecl`: a declaration lookup through a `FunctionDecl`, which is not part of
  this model. The parameter index it reads is `Base.Param.index`.
- `dump` arguments. The parameter names and field names come from the `FunctionDecl`
  and `FieldDecl`s. `Dump` takes them as the arguments `paramNames` and `fieldName`.
- Rendering of whole sets and maps (`{ a c }`, `Pre { ... }`). That printing code is
  not part of this model. Only the per-variable `dump` is modelled.
- Clang AST internals. `IgnoreImplicit`, `getDirectCallee`, `getConstructor()->getParent()->getName()`,
  `getFunctionScopeIndex`, `getPointeeCXXRecordDecl` and source locations are folded
  into the fields of `Expr`.
- The `if (!LHS)` and `if (!RHS)` checks (clang/lib/AST/LifetimeAttr.cpp:133-137).
  They cannot fire: peeling never yields a null node. The later check that the
  left side left no error range is kept, though it cannot fire either: any failure
  also empties the set.
- Unchecked `getArg` calls. The model makes the accesses preconditions instead of
  inventing a check the code does not have.
- ArgsPresent (and `FillArgsPresent`) over-approximate the nodes the code reads. They
  require every element of a `PSet` constructor or an init-list, although
  `processArgs` stops at the first empty element (clang/lib/AST/LifetimeAttr.cpp:94-95).
  They require the right-hand side, although a rejected left-hand side returns first
  (clang/lib/AST/LifetimeAttr.cpp:141-142). On a `PSet` node, `ignoreReturnValues`
  reads nothing below it (clang/lib/AST/LifetimeAttr.cpp:25-26), yet its elements are
  required too. Which nodes are reached depends on the lookup map, so an exact
  predicate would have to run the extraction itself. The stronger precondition is
  carried by `IgnoreReturnValues`, `Canonicalize`, `CollectPSet`, `ProcessArgs`,
  `Fill` and `FillContractFromExpr`.
- The `int` counts of `deref(int Num)` and `paramBasedVal(..., int Deref)` are `nat` in
  `DerefBy` and `ParamBasedVal`. No core caller passes a negative count, and a negative
  one would make `while (Num--)` run until the integer wraps.
- The header declares `fillContractFromExpr` as returning `Optional<SourceRange>`,
  while the implementation returns a plain `SourceRange`. The model follows the
  implementation, with `InvalidRange` for success.
- Type errors in annotations, such as `{**a}`, are reported by Clang's semantic
  analysis before extraction. They are not part of this model.
- The lifetime flow analysis that uses the contracts, and the diagnostics it emits.
