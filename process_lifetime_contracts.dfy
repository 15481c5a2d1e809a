/** Extraction of one lifetime contract from the expression tree of a
    `lifetime(lhs, rhs)` annotation into a `Contracts` map. The Clang
    expression tree is abstracted by `Expr`: only the node kinds the
    extractor distinguishes are kept, with the names its lookups return. */
module ProcessLifetimeContracts {
  import opened LifetimeAttr

  datatype Option<T> = None | Some(value: T)

  /** A source range; `InvalidRange` is the default-constructed one the
      extractor returns for success. */
  datatype SourceRange = InvalidRange | ValidRange(id: nat)

  /** What a `DeclRefExpr` refers to: a parameter (with its index in the
      enclosing function), another variable, or no variable at all. */
  datatype DeclKind = ParmVar(index: nat) | OtherVar | NotAVar

  /** The expression kinds the extractor looks at. Every node has its range.
      - `Call`: a call with its direct callee's identifier (`None` when there
        is no direct callee or its name is not an identifier);
      - `UnresolvedCall`: a call whose callee awaits overload resolution,
        with its lookup name (`None` when not an identifier);
      - `Construct`: a constructor call, with the name of the class;
      - `Implicit`: an implicit cast, materialisation or temporary binding;
      - `ConversionCall`: a member call of a conversion operator on `obj`;
      - `Other`: any other kind of expression. */
  datatype Expr =
    | ThisExpr(range: SourceRange, record: RecordId)
    | DeclRef(range: SourceRange, name: string, kind: DeclKind)
    | Call(range: SourceRange, callee: Option<string>, args: seq<Expr>)
    | UnresolvedCall(range: SourceRange, lookupName: Option<string>, args: seq<Expr>)
    | Construct(range: SourceRange, className: string, args: seq<Expr>)
    | InitList(range: SourceRange, inits: seq<Expr>)
    | Implicit(range: SourceRange, inner: Expr)
    | ConversionCall(range: SourceRange, obj: Expr)
    | Other(range: SourceRange)

  function Size(e: Expr): (n: nat)
    ensures n >= 1
  {
    match e
    case Call(_, _, args) => 1 + SizeAll(args)
    case UnresolvedCall(_, _, args) => 1 + SizeAll(args)
    case Construct(_, _, args) => 1 + SizeAll(args)
    case InitList(_, inits) => 1 + SizeAll(inits)
    case Implicit(_, inner) => 1 + Size(inner)
    case ConversionCall(_, obj) => 1 + Size(obj)
    case _ => 1
  }

  function SizeAll(es: seq<Expr>): nat
  {
    if es == [] then 0 else Size(es[0]) + SizeAll(es[1..])
  }

  lemma {:induction false} SizeAllSplit(es: seq<Expr>, i: nat)
    requires i < |es|
    ensures SizeAll(es[i..]) == Size(es[i]) + SizeAll(es[i + 1..])
    ensures Size(es[i]) <= SizeAll(es)
    ensures SizeAll(es[i + 1..]) < SizeAll(es[i..]) <= SizeAll(es)
  {
    assert es[i..][0] == es[i] && es[i..][1..] == es[i + 1..];
    if i > 0 {
      SizeAllSplit(es[1..], i - 1);
      assert es[1..][i - 1..] == es[i..] && es[1..][i..] == es[i + 1..];
    } else {
      assert es[0..] == es;
    }
  }

  /** The argument accesses the C++ code makes without checking the count
      are in bounds, on every node the extractor may visit: `getArg(0)` of a
      constructor that is not `PSet` (while peeling) and of a `deref` call
      (while collecting). The arguments of other calls are never visited.
      Every element of a `PSet` constructor or an init-list is covered,
      although collection stops at the first failing or empty element. */
  predicate ArgsPresent(e: Expr)
  {
    match e
    case Call(_, callee, args) =>
      callee == Some("deref") ==> |args| >= 1 && ArgsPresent(args[0])
    case Construct(_, cls, args) =>
      if cls == "PSet" then forall i :: 0 <= i < |args| ==> ArgsPresent(args[i])
      else |args| >= 1 && ArgsPresent(args[0])
    case InitList(_, inits) => forall i :: 0 <= i < |inits| ==> ArgsPresent(inits[i])
    case Implicit(_, inner) => ArgsPresent(inner)
    case ConversionCall(_, obj) => ArgsPresent(obj)
    case _ => true
  }

  /** Every range that occurs in the tree. */
  function RangesOf(e: Expr): set<SourceRange>
  {
    match e
    case Call(r, _, args) => {r} + RangesOfAll(args)
    case UnresolvedCall(r, _, args) => {r} + RangesOfAll(args)
    case Construct(r, _, args) => {r} + RangesOfAll(args)
    case InitList(r, inits) => {r} + RangesOfAll(inits)
    case Implicit(r, inner) => {r} + RangesOf(inner)
    case ConversionCall(r, obj) => {r} + RangesOf(obj)
    case _ => {e.range}
  }

  function RangesOfAll(es: seq<Expr>): set<SourceRange>
  {
    if es == [] then {} else RangesOf(es[0]) + RangesOfAll(es[1..])
  }

  lemma {:induction false} RangesOfAllContains(es: seq<Expr>, i: nat)
    requires i < |es|
    ensures RangesOf(es[i]) <= RangesOfAll(es)
  {
    if i > 0 {
      RangesOfAllContains(es[1..], i - 1);
    }
  }

  // ---------------------------------------------------------------------
  // ignoreReturnValues

  /** A node that peeling leaves alone. */
  predicate IsCanonical(e: Expr)
  {
    !e.Implicit? && !e.ConversionCall? && !(e.Construct? && e.className != "PSet")
  }

  /** `Expr::IgnoreImplicit`: strips implicit wrappers. */
  function IgnoreImplicit(e: Expr): (r: Expr)
    ensures !r.Implicit?
    ensures e.Implicit? ==> Size(r) < Size(e)
    ensures !e.Implicit? ==> r == e
    ensures ArgsPresent(e) ==> ArgsPresent(r) && Canonicalize(r) == Canonicalize(e)
  {
    if e.Implicit? then IgnoreImplicit(e.inner) else e
  }

  /** The node that peeling reaches: implicit wrappers are stripped, a
      constructor of a class other than `PSet` is replaced by its first
      argument, a conversion-operator call by its object, until none of
      these applies. */
  function Canonicalize(e: Expr): (r: Expr)
    requires ArgsPresent(e)
    ensures IsCanonical(r) && ArgsPresent(r)
    ensures IsCanonical(e) ==> r == e
    ensures !IsCanonical(e) ==> Size(r) < Size(e)
    ensures RangesOf(r) <= RangesOf(e)
    decreases Size(e)
  {
    match e
    case Implicit(_, inner) => Canonicalize(inner)
    case Construct(_, cls, args) =>
      if cls == "PSet" then e
      else
        SizeAllSplit(args, 0);
        RangesOfAllContains(args, 0);
        Canonicalize(args[0])
    case ConversionCall(_, obj) => Canonicalize(obj)
    case _ => e
  }

  /** Peeling a peeled node changes nothing. */
  lemma CanonicalizeIdempotent(e: Expr)
    requires ArgsPresent(e)
    ensures Canonicalize(Canonicalize(e)) == Canonicalize(e)
  {
  }

  /** `ignoreReturnValues`: repeats one peeling pass until a pass leaves
      the node unchanged, returning a `PSet` constructor at once. */
  method IgnoreReturnValues(e: Expr) returns (r: Expr)
    requires ArgsPresent(e)
    ensures r == Canonicalize(e)
  {
    r := e;
    while true
      invariant ArgsPresent(r) && Canonicalize(r) == Canonicalize(e)
      decreases Size(r)
    {
      var original := r;
      r := IgnoreImplicit(r);
      if r.Construct? {
        if r.className == "PSet" {
          return;
        }
        SizeAllSplit(r.args, 0);
        assert ArgsPresent(r.args[0]) && Canonicalize(r) == Canonicalize(r.args[0]);
        r := r.args[0];
      }
      if r.ConversionCall? {
        assert ArgsPresent(r.obj) && Canonicalize(r) == Canonicalize(r.obj);
        r := r.obj;
      }
      assert r == original || Size(r) < Size(original);
      if r == original {
        return;
      }
    }
  }

  // ---------------------------------------------------------------------
  // collectPSet

  /** The outcome of collecting a set: the set, or the range of the first
      sub-expression that could not be understood. The C++ code reports the
      latter through its `FailRange` out-parameter and returns an empty set. */
  datatype Collected = Found(pset: PSet) | Failed(at: SourceRange)

  /** `{v.deref() | v in s}`. */
  function DerefAll(s: PSet): PSet
  {
    set v | v in s :: DerefOnce(v)
  }

  /** The sentinel a variable name stands for, if any. */
  function Sentinel(name: string): Option<Variable>
  {
    if name == "Null" then Some(NullVal())
    else if name == "Static" then Some(GlobalVal())
    else if name == "Invalid" then Some(InvalidVal())
    else if name == "Return" then Some(ReturnVal())
    else None
  }

  /** What `collectPSet` computes for a node, with `lookup` standing for the
      optional lookup map. */
  function Collect(e: Expr, lookup: Option<Contracts>): Collected
    requires ArgsPresent(e) && IsCanonical(e)
    decreases Size(e), 1
  {
    match e
    case ThisExpr(_, rd) => Found({ThisVal(rd)})
    case DeclRef(range, name, kind) =>
      if kind.NotAVar? then Failed(range)
      else if Sentinel(name).Some? then Found({Sentinel(name).value})
      else if !kind.ParmVar? then Failed(range)
      else if lookup.Some? && ParamVal(kind.index) in lookup.value then Found(lookup.value[ParamVal(kind.index)])
      else Found({ParamVal(kind.index)})
    case Call(range, callee, args) =>
      if callee != Some("deref") then Failed(range)
      else
        SizeAllSplit(args, 0);
        (match Collect(Canonicalize(args[0]), lookup)
         case Failed(r) => Failed(r)
         case Found(s) => Found(DerefAll(s)))
    case Construct(_, _, args) => CollectArgs(args, 0, {}, lookup)
    case InitList(_, inits) => CollectArgs(inits, 0, {}, lookup)
    case _ => Failed(e.range)
  }

  /** The `processArgs` loop from argument `i` on, with `acc` the union so
      far: an empty or failed argument ends it with an empty set. */
  function CollectArgs(args: seq<Expr>, i: nat, acc: PSet, lookup: Option<Contracts>): Collected
    requires i <= |args|
    requires forall j :: 0 <= j < |args| ==> ArgsPresent(args[j])
    decreases SizeAll(args[i..]), 2
  {
    if i == |args| then Found(acc)
    else
      SizeAllSplit(args, i);
      match Collect(Canonicalize(args[i]), lookup)
      case Failed(r) => Failed(r)
      case Found(s) => if s == {} then Found({}) else CollectArgs(args, i + 1, acc + s, lookup)
  }

  /** `collectPSet`; the C++ code's `FailRange` out-parameter is passed in as
      `failRange` and its final value returned as `failOut`. */
  method CollectPSet(e: Expr, lookup: Option<Contracts>, failRange: SourceRange)
    returns (s: PSet, failOut: SourceRange)
    requires ArgsPresent(e) && IsCanonical(e)
    ensures Collect(e, lookup).Found? ==> s == Collect(e, lookup).pset && failOut == failRange
    ensures Collect(e, lookup).Failed? ==> s == {} && failOut == Collect(e, lookup).at
    decreases Size(e), 1
  {
    failOut := failRange;
    match e {
      case ThisExpr(_, rd) =>
        return {ThisVal(rd)}, failOut;
      case DeclRef(range, name, kind) =>
        if kind.NotAVar? {
          return {}, range;
        }
        if name == "Null" {
          return {NullVal()}, failOut;
        } else if name == "Static" {
          return {GlobalVal()}, failOut;
        } else if name == "Invalid" {
          return {InvalidVal()}, failOut;
        } else if name == "Return" {
          return {ReturnVal()}, failOut;
        } else {
          if !kind.ParmVar? {
            return {}, range;
          }
          if lookup.Some? && ParamVal(kind.index) in lookup.value {
            return lookup.value[ParamVal(kind.index)], failOut;
          }
          return {ParamVal(kind.index)}, failOut;
        }
      case Call(range, callee, args) =>
        if callee != Some("deref") {
          return {}, range;
        }
        SizeAllSplit(args, 0);
        var arg := IgnoreReturnValues(args[0]);
        var result;
        result, failOut := CollectPSet(arg, lookup, failOut);
        result := DerefEach(result);
        return result, failOut;
      case Construct(_, cls, args) =>
        assert cls == "PSet";
        s, failOut := ProcessArgs(args, lookup, failOut);
      case InitList(_, inits) =>
        s, failOut := ProcessArgs(inits, lookup, failOut);
      case _ =>
        return {}, e.range;
    }
  }

  /** The loop of the `deref` branch: every variable of the copy, dereferenced
      once, inserted into the cleared result. */
  method DerefEach(varsCopy: PSet) returns (result: PSet)
    ensures result == DerefAll(varsCopy)
  {
    result := {};
    var rest := varsCopy;
    while rest != {}
      invariant rest <= varsCopy
      invariant result == DerefAll(varsCopy - rest)
      decreases |rest|
    {
      var v :| v in rest;
      var d := DerefBy(v, 1);
      assert d.chain == v.chain + [Deref];
      assert d == DerefOnce(v);
      result := result + {d};
      rest := rest - {v};
    }
    assert varsCopy - rest == varsCopy;
  }

  /** The `processArgs` lambda of `collectPSet`: the union of the
      arguments' sets, left to right, stopping at the first empty one. */
  method ProcessArgs(args: seq<Expr>, lookup: Option<Contracts>, failRange: SourceRange)
    returns (s: PSet, failOut: SourceRange)
    requires forall j :: 0 <= j < |args| ==> ArgsPresent(args[j])
    ensures CollectArgs(args, 0, {}, lookup).Found? ==>
              s == CollectArgs(args, 0, {}, lookup).pset && failOut == failRange
    ensures CollectArgs(args, 0, {}, lookup).Failed? ==>
              s == {} && failOut == CollectArgs(args, 0, {}, lookup).at
    decreases SizeAll(args), 2
  {
    s := {};
    failOut := failRange;
    var i := 0;
    while i < |args|
      invariant 0 <= i <= |args|
      invariant failOut == failRange
      invariant CollectArgs(args, i, s, lookup) == CollectArgs(args, 0, {}, lookup)
    {
      SizeAllSplit(args, i);
      var arg := IgnoreReturnValues(args[i]);
      var elem;
      elem, failOut := CollectPSet(arg, lookup, failOut);
      if elem == {} {
        return elem, failOut;
      }
      s := s + elem;
      i := i + 1;
    }
  }

  // ---------------------------------------------------------------------
  // fillContractFromExpr

  /** The callee test: a resolved call of `lifetime`, or a call whose
      callee is an unresolved lookup of that identifier. */
  predicate IsLifetimeCall(e: Expr)
  {
    (e.Call? && e.callee == Some("lifetime")) || (e.UnresolvedCall? && e.lookupName == Some("lifetime"))
  }

  /** What `fillContractFromExpr` reads without checking: its argument
      accesses, including `getArg(0)` and `getArg(1)` of the `lifetime` call. */
  predicate FillArgsPresent(e: Expr)
  {
    IsLifetimeCall(e) ==> |e.args| >= 2 && ArgsPresent(e.args[0]) && ArgsPresent(e.args[1])
  }

  /** The element of a one-element set (`*LhsPSet.begin()`). */
  ghost function TheElement(s: PSet): (x: Variable)
    requires |s| == 1
    ensures s == {x}
  {
    var x :| x in s;
    assert |s - {x}| == 0;
    x
  }

  /** The range `fillContractFromExpr` returns and the map it leaves. */
  datatype Filled = Filled(range: SourceRange, contracts: Contracts)

  /** What `fillContractFromExpr` does to the map `m`: on any error it
      returns the offending range and leaves `m` as it was; otherwise it
      maps the single variable of the left-hand side to the set of the
      right-hand side, replacing an earlier entry, and returns the invalid
      range. */
  ghost function Fill(e: Expr, m: Contracts): (res: Filled)
    requires FillArgsPresent(e)
    ensures res.range.ValidRange? ==> res.contracts == m
    ensures res.contracts == m || exists k :: k in res.contracts && res.contracts == m[k := res.contracts[k]]
  {
    if !IsLifetimeCall(e) then Filled(e.range, m)
    else
      var lhs := Canonicalize(e.args[0]);
      var rhs := Canonicalize(e.args[1]);
      match Collect(lhs, None)
      case Failed(_) => Filled(lhs.range, m)
      case Found(keys) =>
        if |keys| != 1 then Filled(lhs.range, m)
        else
          var key := TheElement(keys);
          match Collect(rhs, Some(m))
          case Failed(r) => if r.ValidRange? then Filled(r, m) else Filled(InvalidRange, m[key := {}])
          case Found(s) => Filled(InvalidRange, m[key := s])
  }

  /** The caller-owned map the extractor fills (`LifetimeContracts &Fill`). */
  class ContractMap {
    var entries: Contracts

    constructor ()
      ensures entries == map[]
    {
      entries := map[];
    }
  }

  /** `fillContractFromExpr`: checks the callee, peels both arguments,
      collects the left-hand side without lookup and the right-hand side
      with the map as lookup, and commits one entry. */
  method FillContractFromExpr(e: Expr, fill: ContractMap) returns (range: SourceRange)
    requires FillArgsPresent(e)
    modifies fill
    ensures Filled(range, fill.entries) == Fill(e, old(fill.entries))
  {
    if !IsLifetimeCall(e) {
      return e.range;
    }
    var lhs := IgnoreReturnValues(e.args[0]);
    var rhs := IgnoreReturnValues(e.args[1]);

    var errorRange := InvalidRange;
    var lhsPSet;
    lhsPSet, errorRange := CollectPSet(lhs, None, errorRange);
    if |lhsPSet| != 1 {
      return lhs.range;
    }
    if errorRange.ValidRange? {
      return errorRange;
    }
    var key :| key in lhsPSet;
    assert lhsPSet == {key} by {
      assert |lhsPSet - {key}| == 0;
    }
    var rhsPSet;
    rhsPSet, errorRange := CollectPSet(rhs, Some(fill.entries), errorRange);
    if errorRange.ValidRange? {
      return errorRange;
    }
    fill.entries := fill.entries[key := rhsPSet];
    return InvalidRange;
  }

  // ---------------------------------------------------------------------
  // Properties of collection

  /** A parameter that is not spelled like a sentinel resolves to the set
      stored for it in the lookup map, or else to itself. */
  lemma ParamResolution(range: SourceRange, name: string, index: nat, lookup: Option<Contracts>)
    requires Sentinel(name).None?
    ensures lookup.Some? && ParamVal(index) in lookup.value ==>
              Collect(DeclRef(range, name, ParmVar(index)), lookup) == Found(lookup.value[ParamVal(index)])
    ensures lookup.None? || ParamVal(index) !in lookup.value ==>
              Collect(DeclRef(range, name, ParmVar(index)), lookup) == Found({ParamVal(index)})
  {
  }

  /** The four sentinel names (and no others: not `Global`) denote
      one-element sets, whether the name is a parameter or another
      variable; a reference to something that is not a variable, whatever
      its name, and a variable that is neither a sentinel nor a parameter
      fail at their own range. */
  lemma SentinelResolution(range: SourceRange, name: string, kind: DeclKind, lookup: Option<Contracts>)
    ensures !kind.NotAVar? ==> Collect(DeclRef(range, "Null", kind), lookup) == Found({NullVal()})
    ensures !kind.NotAVar? ==> Collect(DeclRef(range, "Static", kind), lookup) == Found({GlobalVal()})
    ensures !kind.NotAVar? ==> Collect(DeclRef(range, "Invalid", kind), lookup) == Found({InvalidVal()})
    ensures !kind.NotAVar? ==> Collect(DeclRef(range, "Return", kind), lookup) == Found({ReturnVal()})
    ensures Sentinel(name).Some? <==> name in {"Null", "Static", "Invalid", "Return"}
    ensures kind.NotAVar? ==> Collect(DeclRef(range, name, kind), lookup) == Failed(range)
    ensures kind.OtherVar? && Sentinel(name).None? ==> Collect(DeclRef(range, name, kind), lookup) == Failed(range)
  {
  }

  /** A call of anything but `deref`, an unresolved call and any other node
      kind fail at their own range, whatever their arguments. */
  lemma UnsupportedNodes(range: SourceRange, callee: Option<string>, lookupName: Option<string>,
                         args: seq<Expr>, lookup: Option<Contracts>)
    ensures callee != Some("deref") ==> Collect(Call(range, callee, args), lookup) == Failed(range)
    ensures Collect(UnresolvedCall(range, lookupName, args), lookup) == Failed(range)
    ensures Collect(Other(range), lookup) == Failed(range)
  {
  }

  /** An expression that is not a call of `lifetime` is rejected at its own
      range and leaves the map as it was. */
  lemma NotALifetimeCall(e: Expr, m: Contracts)
    ensures !IsLifetimeCall(e) ==> Fill(e, m) == Filled(e.range, m)
  {
  }

  /** Dereferencing a set keeps its size: distinct elements stay distinct. */
  lemma {:induction false} DerefAllSize(s: PSet)
    ensures |DerefAll(s)| == |s|
    decreases |s|
  {
    if s != {} {
      var x :| x in s;
      var t := s - {x};
      DerefAllSize(t);
      assert DerefAll(s) == DerefAll(t) + {DerefOnce(x)};
      forall y | y in t
        ensures DerefOnce(y) != DerefOnce(x)
      {
        DerefPreservesOrder(y, x);
      }
      assert DerefOnce(x) !in DerefAll(t);
    }
  }

  /** `deref(x)` yields exactly the elements of `x`'s set with one more
      dereference each, sentinels included, and as many of them; a failure
      inside `x` is passed on unchanged. */
  lemma DerefCollect(range: SourceRange, x: Expr, lookup: Option<Contracts>)
    requires ArgsPresent(x)
    ensures Collect(Canonicalize(x), lookup).Failed? ==>
              Collect(Call(range, Some("deref"), [x]), lookup) == Collect(Canonicalize(x), lookup)
    ensures Collect(Canonicalize(x), lookup).Found? ==>
              var s := Collect(Canonicalize(x), lookup).pset;
              var r := Collect(Call(range, Some("deref"), [x]), lookup);
              && r.Found?
              && (forall w :: w in r.pset <==> exists v :: v in s && w == DerefOnce(v))
              && |r.pset| == |s|
  {
    var e := Call(range, Some("deref"), [x]);
    assert ArgsPresent(e);
    if Collect(Canonicalize(x), lookup).Found? {
      DerefAllSize(Collect(Canonicalize(x), lookup).pset);
    }
  }

  /** Argument `j` of a set literal, peeled and collected. */
  function ArgSet(args: seq<Expr>, j: nat, lookup: Option<Contracts>): Collected
    requires j < |args| && ArgsPresent(args[j])
  {
    Collect(Canonicalize(args[j]), lookup)
  }

  /** When every argument yields a non-empty set, a set literal denotes the
      union of the arguments' sets. */
  lemma {:induction false} CollectArgsUnion(args: seq<Expr>, i: nat, acc: PSet, lookup: Option<Contracts>)
    requires i <= |args|
    requires forall j :: 0 <= j < |args| ==> ArgsPresent(args[j])
    requires forall j :: i <= j < |args| ==> ArgSet(args, j, lookup).Found? && ArgSet(args, j, lookup).pset != {}
    ensures CollectArgs(args, i, acc, lookup).Found?
    ensures forall v :: v in CollectArgs(args, i, acc, lookup).pset <==>
              v in acc || exists j :: i <= j < |args| && v in ArgSet(args, j, lookup).pset
    decreases |args| - i
  {
    if i < |args| {
      CollectArgsUnion(args, i + 1, acc + ArgSet(args, i, lookup).pset, lookup);
    }
  }

  /** The first argument that fails or yields the empty set decides the
      outcome of a set literal; the arguments after it are not looked at. */
  lemma {:induction false} CollectArgsStops(args: seq<Expr>, i: nat, acc: PSet, lookup: Option<Contracts>, k: nat)
    requires i <= k < |args|
    requires forall j :: 0 <= j < |args| ==> ArgsPresent(args[j])
    requires forall j :: i <= j < k ==> ArgSet(args, j, lookup).Found? && ArgSet(args, j, lookup).pset != {}
    requires ArgSet(args, k, lookup).Failed? || ArgSet(args, k, lookup).pset == {}
    ensures CollectArgs(args, i, acc, lookup) ==
              if ArgSet(args, k, lookup).Failed? then ArgSet(args, k, lookup) else Found({})
    decreases k - i
  {
    if i < k {
      CollectArgsStops(args, i + 1, acc + ArgSet(args, i, lookup).pset, lookup, k);
    }
  }

  /** A failure is always reported at the range of a node of the tree. */
  lemma {:induction false} CollectFailsInside(e: Expr, lookup: Option<Contracts>)
    requires ArgsPresent(e) && IsCanonical(e)
    ensures Collect(e, lookup).Failed? ==> Collect(e, lookup).at in RangesOf(e)
    decreases Size(e), 1
  {
    match e
    case Call(_, callee, args) =>
      if callee == Some("deref") {
        SizeAllSplit(args, 0);
        RangesOfAllContains(args, 0);
        CollectFailsInside(Canonicalize(args[0]), lookup);
      }
    case Construct(_, _, args) =>
      CollectArgsFailsInside(args, 0, {}, lookup);
    case InitList(_, inits) =>
      CollectArgsFailsInside(inits, 0, {}, lookup);
    case _ =>
  }

  lemma {:induction false} CollectArgsFailsInside(args: seq<Expr>, i: nat, acc: PSet, lookup: Option<Contracts>)
    requires i <= |args|
    requires forall j :: 0 <= j < |args| ==> ArgsPresent(args[j])
    ensures CollectArgs(args, i, acc, lookup).Failed? ==> CollectArgs(args, i, acc, lookup).at in RangesOfAll(args)
    decreases SizeAll(args[i..]), 2
  {
    if i < |args| {
      SizeAllSplit(args, i);
      RangesOfAllContains(args, i);
      CollectFailsInside(Canonicalize(args[i]), lookup);
      var c := Collect(Canonicalize(args[i]), lookup);
      if c.Found? && c.pset != {} {
        CollectArgsFailsInside(args, i + 1, acc + c.pset, lookup);
      }
    }
  }

  /** Chains made only of dereferences. */
  predicate DerefChains(s: PSet)
  {
    forall v :: v in s ==> forall i :: 0 <= i < |v.chain| ==> v.chain[i] == Deref
  }

  /** Every key and every set of a map has dereference-only chains. */
  predicate DerefContracts(m: Contracts)
  {
    (forall k :: k in m ==> DerefChains({k}) && DerefChains(m[k]))
  }

  predicate DerefLookup(lookup: Option<Contracts>)
  {
    lookup.Some? ==> DerefContracts(lookup.value)
  }

  /** The extractor only ever builds dereference chains: given a lookup map
      with that property, every collected variable has one. */
  lemma {:induction false} CollectDerefChains(e: Expr, lookup: Option<Contracts>)
    requires ArgsPresent(e) && IsCanonical(e) && DerefLookup(lookup)
    ensures Collect(e, lookup).Found? ==> DerefChains(Collect(e, lookup).pset)
    decreases Size(e), 1
  {
    match e
    case Call(_, callee, args) =>
      if callee == Some("deref") {
        SizeAllSplit(args, 0);
        CollectDerefChains(Canonicalize(args[0]), lookup);
        var c := Collect(Canonicalize(args[0]), lookup);
        if c.Found? {
          forall w | w in DerefAll(c.pset)
            ensures forall i :: 0 <= i < |w.chain| ==> w.chain[i] == Deref
          {
            var v :| v in c.pset && w == DerefOnce(v);
            assert forall i :: 0 <= i < |v.chain| ==> v.chain[i] == Deref;
          }
        }
      }
    case Construct(_, _, args) =>
      CollectArgsDerefChains(args, 0, {}, lookup);
    case InitList(_, inits) =>
      CollectArgsDerefChains(inits, 0, {}, lookup);
    case DeclRef(_, _, kind) =>
      if kind.ParmVar? && lookup.Some? && ParamVal(kind.index) in lookup.value {
        assert DerefChains(lookup.value[ParamVal(kind.index)]);
      }
    case _ =>
  }

  lemma {:induction false} CollectArgsDerefChains(args: seq<Expr>, i: nat, acc: PSet, lookup: Option<Contracts>)
    requires i <= |args|
    requires forall j :: 0 <= j < |args| ==> ArgsPresent(args[j])
    requires DerefLookup(lookup) && DerefChains(acc)
    ensures CollectArgs(args, i, acc, lookup).Found? ==> DerefChains(CollectArgs(args, i, acc, lookup).pset)
    decreases SizeAll(args[i..]), 2
  {
    if i < |args| {
      SizeAllSplit(args, i);
      CollectDerefChains(Canonicalize(args[i]), lookup);
      var c := Collect(Canonicalize(args[i]), lookup);
      if c.Found? && c.pset != {} {
        CollectArgsDerefChains(args, i + 1, acc + c.pset, lookup);
      }
    }
  }

  /** Collecting with an empty lookup map is collecting without one. */
  lemma {:induction false} CollectEmptyLookup(e: Expr)
    requires ArgsPresent(e) && IsCanonical(e)
    ensures Collect(e, Some(map[])) == Collect(e, None)
    decreases Size(e), 1
  {
    match e
    case Call(_, callee, args) =>
      if callee == Some("deref") {
        SizeAllSplit(args, 0);
        CollectEmptyLookup(Canonicalize(args[0]));
      }
    case Construct(_, _, args) =>
      CollectArgsEmptyLookup(args, 0, {});
    case InitList(_, inits) =>
      CollectArgsEmptyLookup(inits, 0, {});
    case _ =>
  }

  lemma {:induction false} CollectArgsEmptyLookup(args: seq<Expr>, i: nat, acc: PSet)
    requires i <= |args|
    requires forall j :: 0 <= j < |args| ==> ArgsPresent(args[j])
    ensures CollectArgs(args, i, acc, Some(map[])) == CollectArgs(args, i, acc, None)
    decreases SizeAll(args[i..]), 2
  {
    if i < |args| {
      SizeAllSplit(args, i);
      CollectEmptyLookup(Canonicalize(args[i]));
      var c := Collect(Canonicalize(args[i]), None);
      if c.Found? && c.pset != {} {
        CollectArgsEmptyLookup(args, i + 1, acc + c.pset);
      }
    }
  }

  // ---------------------------------------------------------------------
  // Properties of filling

  /** An error is reported at the range of a node of the annotation. */
  lemma FillErrorInside(e: Expr, m: Contracts)
    requires FillArgsPresent(e)
    ensures Fill(e, m).range.ValidRange? ==> Fill(e, m).range in RangesOf(e)
  {
    if IsLifetimeCall(e) {
      RangesOfAllContains(e.args, 0);
      RangesOfAllContains(e.args, 1);
      var lhs := Canonicalize(e.args[0]);
      var rhs := Canonicalize(e.args[1]);
      CollectFailsInside(rhs, Some(m));
    }
  }

  /** When every node of the annotation has a valid range, the returned
      range is invalid exactly when the annotation is a `lifetime` call
      whose left-hand side denotes one variable and whose right-hand side
      collects; the map then gains or replaces that one entry. */
  lemma FillSucceeds(e: Expr, m: Contracts)
    requires FillArgsPresent(e) && InvalidRange !in RangesOf(e)
    ensures Fill(e, m).range == InvalidRange <==>
              && IsLifetimeCall(e)
              && Collect(Canonicalize(e.args[0]), None).Found?
              && |Collect(Canonicalize(e.args[0]), None).pset| == 1
              && Collect(Canonicalize(e.args[1]), Some(m)).Found?
    ensures Fill(e, m).range == InvalidRange ==>
              var key := TheElement(Collect(Canonicalize(e.args[0]), None).pset);
              Fill(e, m).contracts == m[key := Collect(Canonicalize(e.args[1]), Some(m)).pset]
  {
    FillErrorInside(e, m);
    if IsLifetimeCall(e) {
      RangesOfAllContains(e.args, 0);
      RangesOfAllContains(e.args, 1);
      CollectFailsInside(Canonicalize(e.args[1]), Some(m));
    }
  }

  /** Filling keeps every chain of the map a dereference chain. */
  lemma FillKeepsDerefChains(e: Expr, m: Contracts)
    requires FillArgsPresent(e) && DerefContracts(m)
    ensures DerefContracts(Fill(e, m).contracts)
  {
    if IsLifetimeCall(e) {
      var lhs := Canonicalize(e.args[0]);
      var rhs := Canonicalize(e.args[1]);
      CollectDerefChains(lhs, None);
      CollectDerefChains(rhs, Some(m));
      var c := Collect(lhs, None);
      if c.Found? && |c.pset| == 1 {
        var key := TheElement(c.pset);
        assert DerefChains({key});
      }
    }
  }

  // ---------------------------------------------------------------------
  // Annotations of `void f(int *a, int *b, int **c)`, as the parser
  // delivers them: arguments wrapped in implicit nodes, set literals
  // as temporaries of class `PSet`.

  function ParamA(id: nat): Expr { Implicit(ValidRange(id), DeclRef(ValidRange(id), "a", ParmVar(0))) }
  function ParamB(id: nat): Expr { Implicit(ValidRange(id), DeclRef(ValidRange(id), "b", ParmVar(1))) }
  function ParamC(id: nat): Expr { Implicit(ValidRange(id), DeclRef(ValidRange(id), "c", ParmVar(2))) }

  function SetLiteral(id: nat, elems: seq<Expr>): Expr
  {
    Implicit(ValidRange(id), Construct(ValidRange(id), "PSet", elems))
  }

  function Lifetime(id: nat, lhs: Expr, rhs: Expr): Expr
  {
    Call(ValidRange(id), Some("lifetime"), [lhs, rhs])
  }

  /** A wrapped parameter reference peels to the reference itself. */
  lemma ParamArg(id: nat, name: string, index: nat, lookup: Option<Contracts>)
    requires Sentinel(name).None?
    ensures var x := Implicit(ValidRange(id), DeclRef(ValidRange(id), name, ParmVar(index)));
            && ArgsPresent(x)
            && Canonicalize(x) == DeclRef(ValidRange(id), name, ParmVar(index))
            && (lookup.None? || ParamVal(index) !in lookup.value ==>
                  Collect(Canonicalize(x), lookup) == Found({ParamVal(index)}))
            && (lookup.Some? && ParamVal(index) in lookup.value ==>
                  Collect(Canonicalize(x), lookup) == Found(lookup.value[ParamVal(index)]))
  {
  }

  lemma LiteralArgsPresent(id: nat, xs: seq<Expr>)
    requires forall i :: 0 <= i < |xs| ==> ArgsPresent(xs[i])
    ensures ArgsPresent(SetLiteral(id, xs))
    ensures Canonicalize(SetLiteral(id, xs)) == Construct(ValidRange(id), "PSet", xs)
  {
  }

  lemma LifetimeArgsPresent(id: nat, lhs: Expr, rhs: Expr)
    requires ArgsPresent(lhs) && ArgsPresent(rhs)
    ensures FillArgsPresent(Lifetime(id, lhs, rhs)) && IsLifetimeCall(Lifetime(id, lhs, rhs))
  {
  }

  /** A one-element set literal denotes its element's set when that is
      not empty. */
  lemma SingletonLiteral(id: nat, x: Expr, lookup: Option<Contracts>)
    requires ArgsPresent(x)
    requires Collect(Canonicalize(x), lookup).Found? && Collect(Canonicalize(x), lookup).pset != {}
    ensures ArgsPresent(SetLiteral(id, [x]))
    ensures Collect(Canonicalize(SetLiteral(id, [x])), lookup) == Collect(Canonicalize(x), lookup)
  {
    LiteralArgsPresent(id, [x]);
    var s := Collect(Canonicalize(x), lookup).pset;
    assert CollectArgs([x], 1, {} + s, lookup) == Found(s);
    assert CollectArgs([x], 0, {}, lookup) == Found(s);
  }

  /** A two-element set literal denotes the union of its elements' sets
      when neither is empty. */
  lemma PairLiteral(id: nat, x: Expr, y: Expr, lookup: Option<Contracts>)
    requires ArgsPresent(x) && ArgsPresent(y)
    requires Collect(Canonicalize(x), lookup).Found? && Collect(Canonicalize(x), lookup).pset != {}
    requires Collect(Canonicalize(y), lookup).Found? && Collect(Canonicalize(y), lookup).pset != {}
    ensures ArgsPresent(SetLiteral(id, [x, y]))
    ensures Collect(Canonicalize(SetLiteral(id, [x, y])), lookup)
              == Found(Collect(Canonicalize(x), lookup).pset + Collect(Canonicalize(y), lookup).pset)
  {
    var args := [x, y];
    assert args[0] == x && args[1] == y;
    LiteralArgsPresent(id, args);
    var sx := Collect(Canonicalize(x), lookup).pset;
    var sy := Collect(Canonicalize(y), lookup).pset;
    assert CollectArgs(args, 2, {} + sx + sy, lookup) == Found(sx + sy);
    assert CollectArgs(args, 1, {} + sx, lookup) == Found(sx + sy);
    assert CollectArgs(args, 0, {}, lookup) == Found(sx + sy);
  }

  /** `deref(x)` denotes the set of `x` with every chain dereferenced once. */
  lemma DerefCall(id: nat, x: Expr, lookup: Option<Contracts>)
    requires ArgsPresent(x) && Collect(Canonicalize(x), lookup).Found?
    ensures ArgsPresent(Call(ValidRange(id), Some("deref"), [x]))
    ensures Collect(Canonicalize(Call(ValidRange(id), Some("deref"), [x])), lookup)
              == Found(DerefAll(Collect(Canonicalize(x), lookup).pset))
  {
  }

  /** A `lifetime` call whose left-hand side denotes the one variable
      `key` and whose right-hand side collects to `s` maps `key` to `s`,
      whatever `key` was mapped to before, and touches no other key. */
  lemma FillCommits(e: Expr, m: Contracts, key: Variable, s: PSet)
    requires FillArgsPresent(e) && IsLifetimeCall(e)
    requires Collect(Canonicalize(e.args[0]), None) == Found({key})
    requires Collect(Canonicalize(e.args[1]), Some(m)) == Found(s)
    ensures Fill(e, m) == Filled(InvalidRange, m[key := s])
    ensures Fill(e, m).contracts[key] == s
    ensures forall k :: k != key ==> (k in m <==> k in Fill(e, m).contracts)
    ensures forall k :: k != key && k in m ==> Fill(e, m).contracts[k] == m[k]
  {
  }

  /** `lifetime(b, {a})` with `b` and `a` wrapped as the parser delivers
      them maps `b` to `{a}` when the lookup map has no set for `a`. */
  lemma SimpleAnnotation(n: nat, e: Expr, m: Contracts)
    requires e == Lifetime(n, ParamB(n + 1), SetLiteral(n + 2, [ParamA(n + 3)]))
    requires ParamVal(0) !in m
    ensures FillArgsPresent(e)
    ensures Fill(e, m) == Filled(InvalidRange, m[ParamVal(1) := {ParamVal(0)}])
  {
    ParamArg(n + 1, "b", 1, None);
    ParamArg(n + 3, "a", 0, Some(m));
    SingletonLiteral(n + 2, ParamA(n + 3), Some(m));
    LifetimeArgsPresent(n, ParamB(n + 1), SetLiteral(n + 2, [ParamA(n + 3)]));
    FillCommits(e, m, ParamVal(1), {ParamVal(0)});
  }

  /** `lifetime(b, {a})` followed by `lifetime(c, {b})` maps `c` to `{a}`:
      the second annotation reads `b` through the map the first one filled. */
  lemma ChainedAnnotations(n: nat, first: Expr, second: Expr)
    requires first == Lifetime(n, ParamB(n + 1), SetLiteral(n + 2, [ParamA(n + 3)]))
    requires second == Lifetime(n + 4, ParamC(n + 5), SetLiteral(n + 6, [ParamB(n + 7)]))
    ensures FillArgsPresent(first) && FillArgsPresent(second)
    ensures Fill(first, map[]) == Filled(InvalidRange, map[ParamVal(1) := {ParamVal(0)}])
    ensures Fill(second, Fill(first, map[]).contracts)
              == Filled(InvalidRange, map[ParamVal(1) := {ParamVal(0)}, ParamVal(2) := {ParamVal(0)}])
  {
    SimpleAnnotation(n, first, map[]);
    var m1 := map[ParamVal(1) := {ParamVal(0)}];
    ParamArg(n + 5, "c", 2, None);
    ParamArg(n + 7, "b", 1, Some(m1));
    SingletonLiteral(n + 6, ParamB(n + 7), Some(m1));
    LifetimeArgsPresent(n + 4, ParamC(n + 5), SetLiteral(n + 6, [ParamB(n + 7)]));
    FillCommits(second, m1, ParamVal(2), {ParamVal(0)});
  }

  lemma OverwriteEntry(m: Contracts, k: Variable, a: PSet, b: PSet)
    ensures m[k := a][k := b] == m[k := b]
  {
  }

  /** A later annotation for the same key replaces the earlier set:
      `lifetime(b, {a})` then `lifetime(b, {c})` leaves `b -> {c}`. */
  lemma LaterAnnotationReplaces(n: nat, first: Expr, second: Expr, m: Contracts)
    requires first == Lifetime(n, ParamB(n + 1), SetLiteral(n + 2, [ParamA(n + 3)]))
    requires second == Lifetime(n + 4, ParamB(n + 5), SetLiteral(n + 6, [ParamC(n + 7)]))
    requires ParamVal(0) !in m && ParamVal(2) !in m
    ensures FillArgsPresent(first) && FillArgsPresent(second)
    ensures Fill(first, m).contracts == m[ParamVal(1) := {ParamVal(0)}]
    ensures Fill(second, m[ParamVal(1) := {ParamVal(0)}]) == Filled(InvalidRange, m[ParamVal(1) := {ParamVal(2)}])
  {
    SimpleAnnotation(n, first, m);
    var m1 := m[ParamVal(1) := {ParamVal(0)}];
    ParamArg(n + 5, "b", 1, None);
    ParamArg(n + 7, "c", 2, Some(m1));
    SingletonLiteral(n + 6, ParamC(n + 7), Some(m1));
    LifetimeArgsPresent(n + 4, ParamB(n + 5), SetLiteral(n + 6, [ParamC(n + 7)]));
    FillCommits(second, m1, ParamVal(1), {ParamVal(2)});
    OverwriteEntry(m, ParamVal(1), {ParamVal(0)}, {ParamVal(2)});
  }

  /** `lifetime({a, b}, {c})` is rejected at the left-hand side's range and
      changes nothing. */
  lemma TwoElementLeftSideFails(n: nat, e: Expr, m: Contracts)
    requires e == Lifetime(n, SetLiteral(n + 1, [ParamA(n + 2), ParamB(n + 3)]), SetLiteral(n + 4, [ParamC(n + 5)]))
    ensures FillArgsPresent(e)
    ensures Fill(e, m) == Filled(ValidRange(n + 1), m)
  {
    ParamArg(n + 2, "a", 0, None);
    ParamArg(n + 3, "b", 1, None);
    ParamArg(n + 5, "c", 2, None);
    PairLiteral(n + 1, ParamA(n + 2), ParamB(n + 3), None);
    LiteralArgsPresent(n + 4, [ParamC(n + 5)]);
    LifetimeArgsPresent(n, SetLiteral(n + 1, [ParamA(n + 2), ParamB(n + 3)]), SetLiteral(n + 4, [ParamC(n + 5)]));
    var keys := {ParamVal(0)} + {ParamVal(1)};
    assert |keys| == 2;
    assert Collect(Canonicalize(e.args[0]), None) == Found(keys);
    assert Canonicalize(e.args[0]).range == ValidRange(n + 1);
  }

  /** `lifetime(b, {a, f()})` is rejected at the range of `f()`, the one
      unsupported element, and leaves the map as it was. */
  lemma MalformedElementIsIsolated(n: nat, e: Expr, m: Contracts)
    requires e == Lifetime(n, ParamB(n + 1), SetLiteral(n + 2, [ParamA(n + 3), Call(ValidRange(n + 4), Some("f"), [])]))
    requires ParamVal(0) !in m
    ensures FillArgsPresent(e)
    ensures Fill(e, m) == Filled(ValidRange(n + 4), m)
  {
    var args := [ParamA(n + 3), Call(ValidRange(n + 4), Some("f"), [])];
    ParamArg(n + 1, "b", 1, None);
    ParamArg(n + 3, "a", 0, Some(m));
    assert ArgsPresent(args[1]);
    LiteralArgsPresent(n + 2, args);
    LifetimeArgsPresent(n, ParamB(n + 1), SetLiteral(n + 2, args));
    assert ArgSet(args, 0, Some(m)) == Found({ParamVal(0)});
    assert ArgSet(args, 1, Some(m)) == Failed(ValidRange(n + 4));
    CollectArgsStops(args, 0, {}, Some(m), 1);
    assert TheElement({ParamVal(1)}) == ParamVal(1);
  }

  /** `lifetime(b, {f(X())})` is rejected at the range of `f(X())` and
      leaves the map as it was; the arguments of `f`, here a constructor
      call with no argument, are never looked at. */
  lemma UnsupportedCallElement(n: nat, e: Expr, m: Contracts)
    requires e == Lifetime(n, ParamB(n + 1), SetLiteral(n + 2, [Call(ValidRange(n + 3), Some("f"), [Construct(ValidRange(n + 4), "X", [])])]))
    ensures FillArgsPresent(e)
    ensures Fill(e, m) == Filled(ValidRange(n + 3), m)
  {
    var args := [Call(ValidRange(n + 3), Some("f"), [Construct(ValidRange(n + 4), "X", [])])];
    ParamArg(n + 1, "b", 1, None);
    assert ArgsPresent(args[0]);
    LiteralArgsPresent(n + 2, args);
    LifetimeArgsPresent(n, ParamB(n + 1), SetLiteral(n + 2, args));
    assert ArgSet(args, 0, Some(m)) == Failed(ValidRange(n + 3));
    CollectArgsStops(args, 0, {}, Some(m), 0);
    assert TheElement({ParamVal(1)}) == ParamVal(1);
  }

  /** `lifetime(deref(c), {a})` keys the contract on `c` dereferenced once,
      (rendered "*c"). */
  lemma DerefLeftSide(n: nat, e: Expr, fieldName: FieldId -> string)
    requires e == Lifetime(n, Call(ValidRange(n + 1), Some("deref"), [ParamC(n + 2)]), SetLiteral(n + 3, [ParamA(n + 4)]))
    ensures FillArgsPresent(e)
    ensures Fill(e, map[]) == Filled(InvalidRange, map[Variable(Param(2), [Deref]) := {ParamVal(0)}])
    ensures Rendered(Variable(Param(2), [Deref]), ["a", "b", "c"], fieldName) == "*c"
  {
    RenderDerefParam(["a", "b", "c"], 2, fieldName);
    var m0: Contracts := map[];
    var key := Variable(Param(2), [Deref]);
    var lhs := Call(ValidRange(n + 1), Some("deref"), [ParamC(n + 2)]);
    ParamArg(n + 2, "c", 2, None);
    ParamArg(n + 4, "a", 0, Some(m0));
    DerefCall(n + 1, ParamC(n + 2), None);
    assert DerefAll({ParamVal(2)}) == {key} by {
      assert DerefOnce(ParamVal(2)) == key;
    }
    SingletonLiteral(n + 3, ParamA(n + 4), Some(m0));
    LifetimeArgsPresent(n, lhs, SetLiteral(n + 3, [ParamA(n + 4)]));
    assert Collect(Canonicalize(e.args[0]), None) == Found({key});
    assert Collect(Canonicalize(e.args[1]), Some(m0)) == Found({ParamVal(0)});
    FillCommits(e, m0, key, {ParamVal(0)});
  }
}
