/** The data model of lifetime contracts: an abstract memory location
    (`LifetimeContractVariable`), its field/dereference chain, the strict
    order that makes it a key of ordered sets and maps, and its textual
    rendering. Declaration pointers (`RecordDecl *`, `FieldDecl *`) are
    opaque natural numbers compared the way `std::less` compares the
    pointers. */
module LifetimeAttr {

  /** Identity of a `FieldDecl`; two steps naming the same field compare equal. */
  type FieldId = nat

  /** Identity of the `RecordDecl` that `this` points to. */
  type RecordId = nat

  /** One entry of the chain: a dereference (the C++ code's `nullptr` entry)
      or an access to a named field. */
  datatype Step = Deref | Field(field: FieldId)

  /** The closed tag together with its payload: a parameter index for
      `Param`, a record identity for `This`, nothing for the others. */
  datatype Base = Global | Null | Invalid | This(record: RecordId) | Return | Param(index: nat)

  /** An abstract memory location: a base and the chain applied to it,
      first entry first. */
  datatype Variable = Variable(base: Base, chain: seq<Step>)

  /** A points-to set (`ObjectLifetimeSet`); sentinels are ordinary elements. */
  type PSet = set<Variable>

  /** Lifetime constraints (`LifetimeContracts`): each pointer-like key is
      mapped to the set its pointee may point at. */
  type Contracts = map<Variable, PSet>

  // ---------------------------------------------------------------------
  // Factories

  function ThisVal(rd: RecordId): Variable { Variable(This(rd), []) }
  function ReturnVal(): Variable { Variable(Return, []) }
  function GlobalVal(): Variable { Variable(Global, []) }
  function NullVal(): Variable { Variable(Null, []) }
  function InvalidVal(): Variable { Variable(Invalid, []) }

  /** The parameter `index` with no chain: the key the extractor looks up. */
  function ParamVal(index: nat): Variable { Variable(Param(index), []) }

  /** A chain of `n` dereference markers. */
  function Markers(n: nat): (c: seq<Step>)
    ensures |c| == n && forall i :: 0 <= i < n ==> c[i] == Deref
  {
    if n == 0 then [] else Markers(n - 1) + [Deref]
  }

  /** `paramBasedVal(PVD, Deref)`: the parameter followed by `k` dereferences. */
  method ParamBasedVal(index: nat, k: nat) returns (v: Variable)
    ensures v.base == Param(index)
    ensures |v.chain| == k && forall i :: 0 <= i < k ==> v.chain[i] == Deref
  {
    v := DerefBy(ParamVal(index), k);
  }

  // ---------------------------------------------------------------------
  // Chain extension

  /** `deref(Num)`: pushes `n` dereference markers, one per loop turn. */
  method DerefBy(v: Variable, n: nat) returns (r: Variable)
    ensures r.base == v.base
    ensures |r.chain| == |v.chain| + n
    ensures r.chain[..|v.chain|] == v.chain
    ensures forall i :: |v.chain| <= i < |r.chain| ==> r.chain[i] == Deref
  {
    r := v;
    var num := n;
    while num > 0
      invariant r.base == v.base
      invariant |r.chain| == |v.chain| + (n - num)
      invariant r.chain[..|v.chain|] == v.chain
      invariant forall i :: |v.chain| <= i < |r.chain| ==> r.chain[i] == Deref
    {
      r := r.(chain := r.chain + [Deref]);
      num := num - 1;
    }
  }

  /** `deref()` with its default count of one, as the extractor uses it. */
  function DerefOnce(v: Variable): (r: Variable)
    ensures r.base == v.base
    ensures |r.chain| == |v.chain| + 1 && r.chain[..|v.chain|] == v.chain
    ensures r.chain[|v.chain|] == Deref
  {
    Variable(v.base, v.chain + [Deref])
  }

  /** `addFieldRef(FD)`: one more field access at the end of the chain. */
  function AddFieldRef(v: Variable, f: FieldId): (r: Variable)
    ensures r.base == v.base
    ensures |r.chain| == |v.chain| + 1 && r.chain[..|v.chain|] == v.chain
    ensures r.chain[|v.chain|] == Field(f)
  {
    Variable(v.base, v.chain + [Field(f)])
  }

  // ---------------------------------------------------------------------
  // Equality and order

  /** The numeric value of the tag in the declaration order of `TagType`. */
  function Rank(b: Base): nat
  {
    match b
    case Global => 0
    case Null => 1
    case Invalid => 2
    case This(_) => 3
    case Return => 4
    case Param(_) => 5
  }

  /** `operator==`: tag, then chain, then the payload of `Param` and `This`. */
  predicate Equal(a: Variable, b: Variable)
  {
    if Rank(a.base) != Rank(b.base) then false
    else if a.chain != b.chain then false
    else if a.base.Param? then a.base.index == b.base.index
    else if a.base.This? then a.base.record == b.base.record
    else true
  }

  /** `operator==` is structural equality of the closed variant. */
  lemma EqualIsStructural(a: Variable, b: Variable)
    ensures Equal(a, b) <==> a == b
  {
  }

  /** The pointer value `std::less` compares: a dereference entry is the
      null pointer, below every field. */
  function Address(s: Step): nat
  {
    match s
    case Deref => 0
    case Field(f) => f + 1
  }

  predicate StepLess(s: Step, t: Step)
  {
    Address(s) < Address(t)
  }

  /** Pointwise comparison of two chains of equal length: the first entry
      where they differ decides. */
  predicate ChainLess(c: seq<Step>, d: seq<Step>)
    requires |c| == |d|
  {
    c != [] && if c[0] != d[0] then StepLess(c[0], d[0]) else ChainLess(c[1..], d[1..])
  }

  /** `operator<`: tag, then chain length, then payload, then the chain. */
  predicate Less(a: Variable, b: Variable)
  {
    if Rank(a.base) != Rank(b.base) then Rank(a.base) < Rank(b.base)
    else if |a.chain| != |b.chain| then |a.chain| < |b.chain|
    else if a.base.Param? && a.base.index != b.base.index then a.base.index < b.base.index
    else if a.base.This? && a.base.record != b.base.record then a.base.record < b.base.record
    else ChainLess(a.chain, b.chain)
  }

  /** `operator<` as the C++ code runs it, walking both chains with one index. */
  method LessThan(a: Variable, b: Variable) returns (r: bool)
    ensures r == Less(a, b)
  {
    if Rank(a.base) != Rank(b.base) {
      return Rank(a.base) < Rank(b.base);
    }
    if |a.chain| != |b.chain| {
      return |a.chain| < |b.chain|;
    }
    if a.base.Param? && a.base.index != b.base.index {
      return a.base.index < b.base.index;
    }
    if a.base.This? && a.base.record != b.base.record {
      return a.base.record < b.base.record;
    }
    var i := 0;
    while i < |a.chain|
      invariant 0 <= i <= |a.chain|
      invariant ChainLess(a.chain, b.chain) == ChainLess(a.chain[i..], b.chain[i..])
    {
      if a.chain[i] != b.chain[i] {
        return StepLess(a.chain[i], b.chain[i]);
      }
      assert a.chain[i..][1..] == a.chain[i + 1..];
      assert b.chain[i..][1..] == b.chain[i + 1..];
      i := i + 1;
    }
    return false;
  }

  lemma {:induction false} ChainLessIrreflexive(c: seq<Step>)
    ensures !ChainLess(c, c)
  {
    if c != [] {
      ChainLessIrreflexive(c[1..]);
    }
  }

  lemma {:induction false} ChainLessAsymmetric(c: seq<Step>, d: seq<Step>)
    requires |c| == |d| && ChainLess(c, d)
    ensures !ChainLess(d, c)
  {
    if c[0] == d[0] {
      ChainLessAsymmetric(c[1..], d[1..]);
    }
  }

  lemma {:induction false} ChainLessTransitive(c: seq<Step>, d: seq<Step>, e: seq<Step>)
    requires |c| == |d| == |e| && ChainLess(c, d) && ChainLess(d, e)
    ensures ChainLess(c, e)
  {
    if c[0] == d[0] && d[0] == e[0] {
      ChainLessTransitive(c[1..], d[1..], e[1..]);
    }
  }

  lemma {:induction false} ChainLessConnected(c: seq<Step>, d: seq<Step>)
    requires |c| == |d| && c != d
    ensures ChainLess(c, d) || ChainLess(d, c)
  {
    if c[0] == d[0] {
      assert c == [c[0]] + c[1..] && d == [d[0]] + d[1..];
      ChainLessConnected(c[1..], d[1..]);
    }
  }

  /** No variable is below itself. */
  lemma LessIrreflexive(a: Variable)
    ensures !Less(a, a)
  {
    ChainLessIrreflexive(a.chain);
  }

  /** The order is transitive, as `std::set` and `std::map` require of their key order. */
  lemma LessTransitive(a: Variable, b: Variable, c: Variable)
    requires Less(a, b) && Less(b, c)
    ensures Less(a, c)
  {
    if Rank(a.base) == Rank(b.base) == Rank(c.base) && |a.chain| == |b.chain| == |c.chain|
       && a.base == b.base == c.base {
      ChainLessTransitive(a.chain, b.chain, c.chain);
    }
  }

  /** For any two variables exactly one of `a < b`, `b < a`, `a == b` holds,
      so two keys are equivalent under the order exactly when they are equal. */
  lemma LessTrichotomy(a: Variable, b: Variable)
    ensures a == b || Less(a, b) || Less(b, a)
    ensures a == b ==> !Less(a, b) && !Less(b, a)
    ensures !(Less(a, b) && Less(b, a))
  {
    if a == b {
      LessIrreflexive(a);
    } else if Rank(a.base) == Rank(b.base) && |a.chain| == |b.chain| && a.base == b.base {
      ChainLessConnected(a.chain, b.chain);
      if ChainLess(a.chain, b.chain) {
        ChainLessAsymmetric(a.chain, b.chain);
      }
    }
  }

  // ---------------------------------------------------------------------
  // The order as a lexicographic order on numeric keys

  /** Lexicographic order on sequences of naturals; a proper prefix is smaller. */
  predicate LexLess(s: seq<nat>, t: seq<nat>)
  {
    t != [] && (s == [] || s[0] < t[0] || (s[0] == t[0] && LexLess(s[1..], t[1..])))
  }

  function Payload(b: Base): nat
  {
    match b
    case This(rd) => rd
    case Param(i) => i
    case _ => 0
  }

  function Addresses(c: seq<Step>): (r: seq<nat>)
    ensures |r| == |c|
  {
    if c == [] then [] else [Address(c[0])] + Addresses(c[1..])
  }

  /** The sort key: tag, chain length, payload, then the chain's entries. */
  function Key(v: Variable): seq<nat>
  {
    [Rank(v.base), |v.chain|, Payload(v.base)] + Addresses(v.chain)
  }

  lemma {:induction false} ChainLessIsLex(c: seq<Step>, d: seq<Step>)
    requires |c| == |d|
    ensures ChainLess(c, d) <==> LexLess(Addresses(c), Addresses(d))
    ensures c == d <==> Addresses(c) == Addresses(d)
  {
    if c != [] {
      ChainLessIsLex(c[1..], d[1..]);
      var ac, ad := Addresses(c), Addresses(d);
      assert ac[1..] == Addresses(c[1..]) && ad[1..] == Addresses(d[1..]);
      assert c == [c[0]] + c[1..] && d == [d[0]] + d[1..];
      if ac == ad {
        assert ac[0] == ad[0];
      }
    }
  }

  /** The order compares the tag (`Global < Null < Invalid < This < Return <
      Param`), then the chain length, then the parameter index or record,
      then the chain entry by entry; and the key determines the variable. */
  lemma LessIsLexOnKey(a: Variable, b: Variable)
    ensures Less(a, b) <==> LexLess(Key(a), Key(b))
    ensures a == b <==> Key(a) == Key(b)
  {
    var ka, kb := Key(a), Key(b);
    assert ka[1..][1..][1..] == Addresses(a.chain);
    assert kb[1..][1..][1..] == Addresses(b.chain);
    assert ka[1..][0] == |a.chain| && kb[1..][0] == |b.chain|;
    assert ka[1..][1..][0] == Payload(a.base) && kb[1..][1..][0] == Payload(b.base);
    assert LexLess(ka, kb) == (ka[0] < kb[0] || (ka[0] == kb[0] && LexLess(ka[1..], kb[1..])));
    assert LexLess(ka[1..], kb[1..]) ==
      (|a.chain| < |b.chain| || (|a.chain| == |b.chain| && LexLess(ka[1..][1..], kb[1..][1..])));
    assert LexLess(ka[1..][1..], kb[1..][1..]) ==
      (Payload(a.base) < Payload(b.base)
       || (Payload(a.base) == Payload(b.base) && LexLess(Addresses(a.chain), Addresses(b.chain))));
    if |a.chain| == |b.chain| {
      ChainLessIsLex(a.chain, b.chain);
    }
    if ka == kb {
      assert ka[0] == kb[0] && ka[1] == kb[1] && ka[2] == kb[2];
      assert ka[3..] == kb[3..];
    }
  }

  // ---------------------------------------------------------------------
  // Chain extension and the order

  lemma {:induction false} ChainLessExtend(c: seq<Step>, d: seq<Step>, s: Step)
    requires |c| == |d|
    ensures ChainLess(c + [s], d + [s]) <==> ChainLess(c, d)
  {
    if c == [] {
      ChainLessIrreflexive([s]);
    } else {
      assert (c + [s])[1..] == c[1..] + [s];
      assert (d + [s])[1..] == d[1..] + [s];
      ChainLessExtend(c[1..], d[1..], s);
    }
  }

  /** Dereferencing every element keeps their relative order, so the
      dereferenced copies of distinct set elements stay distinct. */
  lemma DerefPreservesOrder(a: Variable, b: Variable)
    ensures Less(DerefOnce(a), DerefOnce(b)) <==> Less(a, b)
    ensures DerefOnce(a) == DerefOnce(b) <==> a == b
  {
    if |a.chain| == |b.chain| {
      ChainLessExtend(a.chain, b.chain, Deref);
    }
    if DerefOnce(a) == DerefOnce(b) {
      assert a.chain == (a.chain + [Deref])[..|a.chain|];
    }
  }

  /** Extending the chain moves a variable strictly up in the order. */
  lemma ExtensionIsGreater(v: Variable, f: FieldId)
    ensures Less(v, DerefOnce(v)) && Less(v, AddFieldRef(v, f))
    ensures DerefOnce(v) != AddFieldRef(v, f)
  {
  }

  /** The factories build variables with an empty chain, which sets and
      maps keep in tag order: global, null, invalid, `this`, the return
      value, then the parameters. */
  lemma FactoryOrder(rd: RecordId, i: nat)
    ensures GlobalVal().chain == NullVal().chain == InvalidVal().chain == []
    ensures ThisVal(rd).chain == ReturnVal().chain == ParamVal(i).chain == []
    ensures Less(GlobalVal(), NullVal()) && Less(NullVal(), InvalidVal())
    ensures Less(InvalidVal(), ThisVal(rd)) && Less(ThisVal(rd), ReturnVal())
    ensures Less(ReturnVal(), ParamVal(i))
  {
  }

  /** Two `this` variables are equal, and ordered, by their record. */
  lemma ThisValOrder(rd1: RecordId, rd2: RecordId)
    ensures ThisVal(rd1) == ThisVal(rd2) <==> rd1 == rd2
    ensures Less(ThisVal(rd1), ThisVal(rd2)) <==> rd1 < rd2
  {
  }

  /** Two parameter variables are equal, and ordered, by their index. */
  lemma ParamValOrder(i: nat, j: nat)
    ensures ParamVal(i) == ParamVal(j) <==> i == j
    ensures Less(ParamVal(i), ParamVal(j)) <==> i < j
  {
  }

  // ---------------------------------------------------------------------
  // Rendering

  /** The name of the base as `dump` prints it, for the non-sentinel tags. */
  function BaseName(b: Base, paramNames: seq<string>): string
    requires b.Param? ==> b.index < |paramNames|
  {
    match b
    case This(_) => "this"
    case Return => "(return value)"
    case Param(i) => paramNames[i]
    case _ => ""
  }

  /** The rendering of `base` followed by `chain`: a dereference prefixes
      '*', a field appends ".name", parenthesising the prefix first when
      the entry before it is a dereference. */
  function RenderChain(base: string, chain: seq<Step>, fieldName: FieldId -> string): string
  {
    if chain == [] then base
    else
      var prefix := RenderChain(base, chain[..|chain| - 1], fieldName);
      match chain[|chain| - 1]
      case Deref => "*" + prefix
      case Field(f) =>
        (if |chain| > 1 && chain[|chain| - 2] == Deref then "(" + prefix + ")" else prefix)
        + "." + fieldName(f)
  }

  /** What `dump` returns: a fixed word for each sentinel, whatever its
      chain; the rendered chain otherwise. */
  function Rendered(v: Variable, paramNames: seq<string>, fieldName: FieldId -> string): string
    requires v.base.Param? ==> v.base.index < |paramNames|
  {
    match v.base
    case Null => "null"
    case Global => "global"
    case Invalid => "invalid"
    case _ => RenderChain(BaseName(v.base, paramNames), v.chain, fieldName)
  }

  /** `dump(FD)`: builds the text entry by entry. */
  method Dump(v: Variable, paramNames: seq<string>, fieldName: FieldId -> string) returns (s: string)
    requires v.base.Param? ==> v.base.index < |paramNames|
    ensures s == Rendered(v, paramNames, fieldName)
  {
    match v.base {
      case Null => return "null";
      case Global => return "global";
      case Invalid => return "invalid";
      case This(_) => s := "this";
      case Return => s := "(return value)";
      case Param(i) => s := paramNames[i];
    }
    var base := s;
    var i := 0;
    while i < |v.chain|
      invariant 0 <= i <= |v.chain|
      invariant s == RenderChain(base, v.chain[..i], fieldName)
    {
      assert v.chain[..i + 1][..i] == v.chain[..i];
      match v.chain[i] {
        case Field(f) =>
          if i > 0 && v.chain[i - 1] == Deref {
            s := "(" + s + ")";
          }
          s := s + "." + fieldName(f);
        case Deref =>
          s := "*" + s;
      }
      i := i + 1;
    }
    assert v.chain[..i] == v.chain;
  }

  /** The number of occurrences of `c` in `s`. */
  function Occurrences(c: char, s: string): nat
  {
    if s == [] then 0 else (if s[0] == c then 1 else 0) + Occurrences(c, s[1..])
  }

  lemma {:induction false} OccurrencesAppend(c: char, s: string, t: string)
    ensures Occurrences(c, s + t) == Occurrences(c, s) + Occurrences(c, t)
  {
    if s != [] {
      assert (s + t)[0] == s[0] && (s + t)[1..] == s[1..] + t;
      OccurrencesAppend(c, s[1..], t);
    } else {
      assert s + t == t;
    }
  }

  function DerefCount(chain: seq<Step>): nat
  {
    if chain == [] then 0 else DerefCount(chain[..|chain| - 1]) + (if chain[|chain| - 1] == Deref then 1 else 0)
  }

  function FieldCount(chain: seq<Step>): nat
  {
    if chain == [] then 0 else FieldCount(chain[..|chain| - 1]) + (if chain[|chain| - 1].Field? then 1 else 0)
  }

  /** A chain of `k` dereferences renders as `k` stars before the base:
      one dereference of `c` is "*c", two of `a` are "**a". */
  lemma {:induction false} RenderMarkers(base: string, k: nat, fieldName: FieldId -> string)
    ensures RenderChain(base, Markers(k), fieldName) == seq(k, _ => '*') + base
  {
    if k > 0 {
      RenderMarkers(base, k - 1, fieldName);
      assert Markers(k)[..k - 1] == Markers(k - 1);
      assert seq(k, _ => '*') == ['*'] + seq(k - 1, _ => '*');
    }
  }

  /** Each dereference contributes exactly one '*' and each field exactly
      one '.', provided field names contain neither character. */
  lemma {:induction false} RenderCounts(base: string, chain: seq<Step>, fieldName: FieldId -> string)
    requires forall f :: Occurrences('*', fieldName(f)) == 0 && Occurrences('.', fieldName(f)) == 0
    ensures Occurrences('*', RenderChain(base, chain, fieldName)) == Occurrences('*', base) + DerefCount(chain)
    ensures Occurrences('.', RenderChain(base, chain, fieldName)) == Occurrences('.', base) + FieldCount(chain)
  {
    if chain != [] {
      var front := chain[..|chain| - 1];
      RenderCounts(base, front, fieldName);
      var prefix := RenderChain(base, front, fieldName);
      match chain[|chain| - 1] {
        case Deref =>
          OccurrencesAppend('*', "*", prefix);
          OccurrencesAppend('.', "*", prefix);
        case Field(f) =>
          var p := if |chain| > 1 && chain[|chain| - 2] == Deref then "(" + prefix + ")" else prefix;
          OccurrencesAppend('*', "(", prefix);
          OccurrencesAppend('*', "(" + prefix, ")");
          OccurrencesAppend('.', "(", prefix);
          OccurrencesAppend('.', "(" + prefix, ")");
          OccurrencesAppend('*', p, ".");
          OccurrencesAppend('*', p + ".", fieldName(f));
          OccurrencesAppend('.', p, ".");
          OccurrencesAppend('.', p + ".", fieldName(f));
      }
    }
  }

  /** The number of fields that directly follow a dereference. */
  function FieldAfterDerefCount(chain: seq<Step>): nat
  {
    if chain == [] then 0
    else
      FieldAfterDerefCount(chain[..|chain| - 1])
      + (if chain[|chain| - 1].Field? && |chain| > 1 && chain[|chain| - 2] == Deref then 1 else 0)
  }

  /** Exactly one pair of parentheses is added to the base's own (such as
      those of "(return value)") for each field that directly follows a
      dereference, and none otherwise, provided no field name contains
      parentheses. */
  lemma {:induction false} RenderParentheses(base: string, chain: seq<Step>, fieldName: FieldId -> string)
    requires forall f :: Occurrences('(', fieldName(f)) == 0 && Occurrences(')', fieldName(f)) == 0
    ensures Occurrences('(', RenderChain(base, chain, fieldName)) == Occurrences('(', base) + FieldAfterDerefCount(chain)
    ensures Occurrences(')', RenderChain(base, chain, fieldName)) == Occurrences(')', base) + FieldAfterDerefCount(chain)
  {
    if chain != [] {
      var front := chain[..|chain| - 1];
      RenderParentheses(base, front, fieldName);
      var prefix := RenderChain(base, front, fieldName);
      match chain[|chain| - 1] {
        case Deref =>
          OccurrencesAppend('(', "*", prefix);
          OccurrencesAppend(')', "*", prefix);
        case Field(f) =>
          var p := if |chain| > 1 && chain[|chain| - 2] == Deref then "(" + prefix + ")" else prefix;
          OccurrencesAppend('(', "(", prefix);
          OccurrencesAppend('(', "(" + prefix, ")");
          OccurrencesAppend(')', "(", prefix);
          OccurrencesAppend(')', "(" + prefix, ")");
          OccurrencesAppend('(', p, ".");
          OccurrencesAppend('(', p + ".", fieldName(f));
          OccurrencesAppend(')', p, ".");
          OccurrencesAppend(')', p + ".", fieldName(f));
      }
    }
  }

  /** The sentinels render as their fixed word whatever their chain; the
      other bases render as their name when the chain is empty. */
  lemma RenderBases(v: Variable, paramNames: seq<string>, fieldName: FieldId -> string)
    requires v.base.Param? ==> v.base.index < |paramNames|
    ensures v.base == Null ==> Rendered(v, paramNames, fieldName) == "null"
    ensures v.base == Global ==> Rendered(v, paramNames, fieldName) == "global"
    ensures v.base == Invalid ==> Rendered(v, paramNames, fieldName) == "invalid"
    ensures v.base.This? && v.chain == [] ==> Rendered(v, paramNames, fieldName) == "this"
    ensures v.base == Return && v.chain == [] ==> Rendered(v, paramNames, fieldName) == "(return value)"
    ensures v.base.Param? && v.chain == [] ==> Rendered(v, paramNames, fieldName) == paramNames[v.base.index]
  {
  }

  /** A parameter dereferenced once renders as a star before its name. */
  lemma RenderDerefParam(paramNames: seq<string>, i: nat, fieldName: FieldId -> string)
    requires i < |paramNames|
    ensures Rendered(Variable(Param(i), [Deref]), paramNames, fieldName) == "*" + paramNames[i]
  {
    assert [Deref][..0] == [];
    assert RenderChain(paramNames[i], [Deref], fieldName) == "*" + RenderChain(paramNames[i], [], fieldName);
  }

  /** A field after a dereference parenthesises the dereferenced prefix:
      parameter `c` dereferenced, then field `f`, renders as "(*c).f";
      the sentinels render as their fixed word whatever their chain. */
  lemma RenderExamples(fieldName: FieldId -> string, f: FieldId)
    requires fieldName(f) == "f"
    ensures Rendered(Variable(Param(0), [Deref, Field(f)]), ["c"], fieldName) == "(*c).f"
    ensures Rendered(Variable(Param(0), [Field(f), Deref]), ["c"], fieldName) == "*c.f"
    ensures Rendered(Variable(Return, [Deref]), [], fieldName) == "*(return value)"
    ensures Rendered(Variable(Null, [Deref, Field(f)]), [], fieldName) == "null"
  {
    assert [Deref, Field(f)][..1] == [Deref];
    assert [Field(f), Deref][..1] == [Field(f)];
    assert [Deref][..0] == [];
    assert [Field(f)][..0] == [];
    assert RenderChain("c", [Deref], fieldName) == "*c";
    assert RenderChain("c", [Field(f)], fieldName) == "c.f";
    assert "(" + "*c" + ")" + "." + "f" == "(*c).f";
    assert "*" + "c.f" == "*c.f";
  }
}
