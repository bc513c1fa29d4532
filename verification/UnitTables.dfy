/**
 Units defined by what they are worth or by other units, resolved once to what each is
 worth in the base unit. Factors are exact.
 */
module UnitTables {
  import opened Wrappers

  datatype UnitSpec = UnitSpec(code: string, toBase: Option<real>, of: Option<string>, times: Option<real>)

  datatype Problem =
    | Duplicate(code: string)
    | MissingBase(code: string)
    | Cycle(code: string)
    | UnknownParent(code: string)
    | NotPositive(code: string)

  type Definitions = map<string, UnitSpec>

  // --- What a definition list means --------------------------------------------------------

  function Multiplied(spec: UnitSpec, parent: real): real {
    (if spec.times.Some? then spec.times.value else 1.0) * parent
  }

  function SoMany(spec: UnitSpec, parent: real): Option<real> {
    if Multiplied(spec, parent) > 0.0 then Some(Multiplied(spec, parent)) else None
  }

  /** The unit's worth, following at most `links` definitions; none if it is not reached or not positive. */
  function WorthWithin(defs: Definitions, base: string, code: string, links: nat): Option<real>
    decreases links
  {
    if code == base then Some(1.0)
    else if code !in defs then None
    else
      var spec := defs[code];
      if spec.toBase.Some? then (if spec.toBase.value > 0.0 then spec.toBase else None)
      else if spec.of.None? || links == 0 then None
      else
        var parent := WorthWithin(defs, base, spec.of.value, links - 1);
        if parent.Some? then SoMany(spec, parent.value) else None
  }

  ghost predicate IsWorth(defs: Definitions, base: string, code: string, factor: real) {
    exists links: nat :: WorthWithin(defs, base, code, links) == Some(factor)
  }

  /** The chain reaches the base, or a unit with an absolute worth, every step positive. */
  ghost predicate HasWorth(defs: Definitions, base: string, code: string) {
    exists links: nat :: WorthWithin(defs, base, code, links).Some?
  }

  /** `next` is what the unit's worth is worked out from. */
  predicate Links(defs: Definitions, base: string, code: string, next: string) {
    code != base && code in defs && defs[code].toBase.None? && defs[code].of == Some(next)
  }

  ghost predicate IsChain(defs: Definitions, base: string, chain: seq<string>) {
    forall i | 0 < i < |chain| :: Links(defs, base, chain[i - 1], chain[i])
  }

  /** A unit defined, step by step, in terms of itself. */
  ghost predicate OnCycle(defs: Definitions, base: string, code: string) {
    exists chain :: |chain| > 1 && chain[0] == code == chain[|chain| - 1] && IsChain(defs, base, chain)
  }

  lemma {:induction false} WorthStays(defs: Definitions, base: string, code: string, links: nat, more: nat)
    requires links <= more && WorthWithin(defs, base, code, links).Some?
    ensures WorthWithin(defs, base, code, more) == WorthWithin(defs, base, code, links)
    decreases links
  {
    if code != base && defs[code].toBase.None? {
      hide SoMany;
      WorthStays(defs, base, defs[code].of.value, links - 1, more - 1);
    }
  }

  lemma WorthIsUnique(defs: Definitions, base: string, code: string, a: real, b: real)
    requires IsWorth(defs, base, code, a) && IsWorth(defs, base, code, b)
    ensures a == b
  {
    var m: nat :| WorthWithin(defs, base, code, m) == Some(a);
    var n: nat :| WorthWithin(defs, base, code, n) == Some(b);
    WorthStays(defs, base, code, m, m + n);
    WorthStays(defs, base, code, n, m + n);
  }

  /** A unit has a worth only if what it links to has one, and then it is so many times that. */
  lemma WorthByLink(defs: Definitions, base: string, code: string, next: string)
    requires Links(defs, base, code, next)
    ensures HasWorth(defs, base, code) ==> HasWorth(defs, base, next)
    ensures forall p | IsWorth(defs, base, next, p) ::
              if SoMany(defs[code], p).Some? then IsWorth(defs, base, code, SoMany(defs[code], p).value) else !HasWorth(defs, base, code)
  {
    hide SoMany;
    if HasWorth(defs, base, code) { ParentHasWorth(defs, base, code, next); }
    forall p | IsWorth(defs, base, next, p)
      ensures if SoMany(defs[code], p).Some? then IsWorth(defs, base, code, SoMany(defs[code], p).value) else !HasWorth(defs, base, code)
    {
      if SoMany(defs[code], p).Some? {
        var n: nat :| WorthWithin(defs, base, next, n) == Some(p);
        assert WorthWithin(defs, base, code, n + 1) == SoMany(defs[code], p);
      } else {
        NeverWorth(defs, base, code, next, p);
      }
    }
  }

  lemma ParentHasWorth(defs: Definitions, base: string, code: string, next: string)
    requires Links(defs, base, code, next) && HasWorth(defs, base, code)
    ensures HasWorth(defs, base, next)
  {
    var n: nat :| WorthWithin(defs, base, code, n).Some?;
    assert n > 0 && WorthWithin(defs, base, next, n - 1).Some?;
  }

  lemma WorthIsHad(defs: Definitions, base: string, code: string, factor: real)
    requires IsWorth(defs, base, code, factor)
    ensures HasWorth(defs, base, code)
  {
    var n: nat :| WorthWithin(defs, base, code, n) == Some(factor);
  }

  lemma BaseIsWorthOne(defs: Definitions, base: string)
    ensures IsWorth(defs, base, base, 1.0)
  {
    assert WorthWithin(defs, base, base, 0) == Some(1.0);
  }

  /** What is not defined, or says neither what it is worth nor what it is made of, has no worth; an absolute one has its own. */
  lemma WorthAlone(defs: Definitions, base: string, code: string)
    requires code != base
    ensures code !in defs || (defs[code].toBase.None? && defs[code].of.None?) ==> !HasWorth(defs, base, code)
    ensures code in defs && defs[code].toBase.Some? ==>
              if defs[code].toBase.value > 0.0 then IsWorth(defs, base, code, defs[code].toBase.value) else !HasWorth(defs, base, code)
  {
    if code in defs && defs[code].toBase.Some? && defs[code].toBase.value > 0.0 {
      assert WorthWithin(defs, base, code, 0) == defs[code].toBase;
    }
  }

  lemma NeverWorth(defs: Definitions, base: string, code: string, next: string, p: real)
    requires Links(defs, base, code, next) && IsWorth(defs, base, next, p) && SoMany(defs[code], p).None?
    ensures !HasWorth(defs, base, code)
  {
    hide SoMany;
    forall n: nat ensures WorthWithin(defs, base, code, n).None? {
      if WorthWithin(defs, base, code, n).Some? {
        assert n > 0 && WorthWithin(defs, base, next, n - 1).Some?;
        WorthIsUnique(defs, base, next, p, WorthWithin(defs, base, next, n - 1).value);
      }
    }
  }

  /** Nothing on a cycle has a worth. */
  lemma {:induction false} CycleHasNone(defs: Definitions, base: string, chain: seq<string>, links: nat)
    requires |chain| > 1 && chain[0] == chain[|chain| - 1] && IsChain(defs, base, chain)
    ensures WorthWithin(defs, base, chain[0], links).None?
    decreases links
  {
    if WorthWithin(defs, base, chain[0], links).Some? {
      ChainCosts(defs, base, chain, links);
      CycleHasNone(defs, base, chain, links - (|chain| - 1));
    }
  }

  lemma {:induction false} ChainCosts(defs: Definitions, base: string, chain: seq<string>, links: nat)
    requires |chain| > 0 && IsChain(defs, base, chain) && WorthWithin(defs, base, chain[0], links).Some?
    ensures links >= |chain| - 1 && WorthWithin(defs, base, chain[|chain| - 1], links - (|chain| - 1)).Some?
    decreases |chain|
  {
    if |chain| > 1 {
      assert Links(defs, base, chain[0], chain[1]);
      assert forall i | 0 < i < |chain[1..]| :: Links(defs, base, chain[1..][i - 1], chain[1..][i]) by {
        forall i | 0 < i < |chain[1..]| ensures Links(defs, base, chain[1..][i - 1], chain[1..][i]) {
          assert Links(defs, base, chain[i], chain[i + 1]);
        }
      }
      ChainCosts(defs, base, chain[1..], links - 1);
    }
  }

  // --- Resolving --------------------------------------------------------------------------

  /** What a refusal says of the definitions is so. */
  ghost predicate Justified(defs: Definitions, base: string, problem: Problem) {
    match problem
    case Cycle(code) => OnCycle(defs, base, code)
    case UnknownParent(code) => code !in defs && code != base
    case NotPositive(code) => code in defs && !HasWorth(defs, base, code)
    case _ => false
  }

  class Resolver {
    const defs: Definitions
    const base: string
    var resolved: map<string, real>
    var resolving: set<string>

    /** What is resolved is worth what it is resolved to. */
    ghost predicate Valid()
      reads this
    {
      && resolving <= defs.Keys
      && base in resolved
      && forall code | code in resolved :: IsWorth(defs, base, code, resolved[code])
    }

    constructor (defs: Definitions, base: string)
      ensures this.defs == defs && this.base == base
      ensures Valid() && resolving == {} && resolved == map[base := 1.0]
    {
      this.defs, this.base, resolved, resolving := defs, base, map[base := 1.0], {};
      new;
      BaseIsWorthOne(defs, base);
    }

    /** `trail` is the chain of units being resolved, the last of them for the sake of `code`. */
    ghost predicate Trails(trail: seq<string>, code: string)
      reads this
    {
      IsChain(defs, base, trail + [code]) && resolving == (set c | c in trail)
    }

    lemma MeetsItself(trail: seq<string>, code: string)
      requires Trails(trail, code) && code in resolving
      ensures OnCycle(defs, base, code) && !HasWorth(defs, base, code)
    {
      var i :| 0 <= i < |trail| && trail[i] == code;
      var whole, chain := trail + [code], (trail + [code])[i..];
      forall k | 0 < k < |chain| ensures Links(defs, base, chain[k - 1], chain[k]) {
        assert Links(defs, base, whole[i + k - 1], whole[i + k]);
      }
      forall n: nat ensures WorthWithin(defs, base, code, n).None? {
        CycleHasNone(defs, base, chain, n);
      }
    }

    lemma TrailGrows(trail: seq<string>, code: string, next: string)
      requires IsChain(defs, base, trail + [code]) && Links(defs, base, code, next)
      ensures IsChain(defs, base, trail + [code] + [next])
    {
      var longer := trail + [code] + [next];
      forall i | 0 < i < |longer| ensures Links(defs, base, longer[i - 1], longer[i]) {
        if i < |trail| + 1 { assert Links(defs, base, (trail + [code])[i - 1], (trail + [code])[i]); }
      }
    }

    method Resolve(code: string, trail: seq<string>) returns (r: Result<real, Problem>)
      requires Valid() && Trails(trail, code)
      modifies this
      ensures r.Ok? ==> Valid() && resolving == old(resolving) && IsWorth(defs, base, code, r.value)
      ensures r.Ok? ==> code in resolved && old(resolved).Keys <= resolved.Keys <= old(resolved).Keys + defs.Keys
      ensures r.Err? ==> !HasWorth(defs, base, code) && Justified(defs, base, r.error)
      decreases defs.Keys - resolving
    {
      hide WorthWithin, IsWorth, HasWorth, OnCycle, IsChain, Multiplied;
      if code in resolved { return Ok(resolved[code]); }
      if code in resolving {
        MeetsItself(trail, code);
        return Err(Cycle(code));
      }
      if code !in defs {
        WorthAlone(defs, base, code);
        return Err(UnknownParent(code));
      }
      WorthAlone(defs, base, code);
      var spec := defs[code];
      resolving := resolving + {code};
      var factor: real;
      if spec.toBase.Some? {
        factor := spec.toBase.value;
      } else if spec.of.Some? {
        var next := spec.of.value;
        TrailGrows(trail, code, next);
        WorthByLink(defs, base, code, next);
        r := Resolve(next, trail + [code]);
        if r.Err? { return; }
        factor := Multiplied(spec, r.value);
      } else {
        return Err(NotPositive(code));
      }
      assert if factor > 0.0 then IsWorth(defs, base, code, factor) else !HasWorth(defs, base, code);
      resolving := resolving - {code};
      if factor <= 0.0 { return Err(NotPositive(code)); }
      resolved := resolved[code := factor];
      r := Ok(factor);
    }
  }

  // --- Building ---------------------------------------------------------------------------

  predicate NoDuplicates(units: seq<UnitSpec>) {
    forall i, j | 0 <= i < j < |units| :: units[i].code != units[j].code
  }

  function DefinitionsOf(units: seq<UnitSpec>): (defs: Definitions)
    ensures forall code | code in defs :: defs[code] in units && defs[code].code == code
    ensures forall u | u in units :: u.code in defs
  {
    if units == [] then map[]
    else
      var last := units[|units| - 1];
      assert units == units[..|units| - 1] + [last];
      DefinitionsOf(units[..|units| - 1])[last.code := last]
  }

  /** The base, where it is declared, is worth 1 of itself or says nothing of its worth. */
  predicate BaseIsOne(defs: Definitions, base: string) {
    base in defs ==>
      var spec := defs[base];
      if spec.toBase.Some? then spec.toBase.value == 1.0 else spec.times.Some? ==> spec.times.value == 1.0
  }

  datatype UnitTable = UnitTable(base: string, codes: seq<string>, factors: map<string, real>)

  /** Exactly the base and the defined units, each at its worth. */
  ghost predicate TableOf(table: UnitTable, defs: Definitions, base: string) {
    && table.base == base
    && table.factors.Keys == {base} + defs.Keys
    && forall code | code in table.factors :: IsWorth(defs, base, code, table.factors[code])
  }

  function CodesBut(units: seq<UnitSpec>, base: string): seq<string> {
    if units == [] then []
    else
      CodesBut(units[..|units| - 1], base) + if units[|units| - 1].code != base then [units[|units| - 1].code] else []
  }

  /** Refused for a duplicate, a base that is not 1, or a unit with no worth; otherwise every unit at its worth. */
  method BuildUnitTable(units: seq<UnitSpec>, base: string) returns (r: Result<UnitTable, Problem>)
    ensures r.Ok? <==>
              && NoDuplicates(units) && BaseIsOne(DefinitionsOf(units), base)
              && forall u | u in units :: HasWorth(DefinitionsOf(units), base, u.code)
    ensures r.Ok? ==> TableOf(r.value, DefinitionsOf(units), base) && r.value.codes == [base] + CodesBut(units, base)
    ensures r.Err? && NoDuplicates(units) && BaseIsOne(DefinitionsOf(units), base) ==> Justified(DefinitionsOf(units), base, r.error)
  {
    var indexed := IndexByCode(units);
    if indexed.Err? { return Err(indexed.error); }
    hide DefinitionsOf, HasWorth, IsWorth, Justified;
    var byCode := indexed.value;
    if base in byCode {
      var declared := byCode[base];
      var direct := if declared.toBase.Some? then declared.toBase else declared.times;
      if direct.Some? && direct.value != 1.0 { return Err(MissingBase(base)); }
    }
    r := ResolveAll(units, byCode, base);
  }

  method IndexByCode(units: seq<UnitSpec>) returns (r: Result<Definitions, Problem>)
    ensures r.Ok? <==> NoDuplicates(units)
    ensures r.Ok? ==> r.value == DefinitionsOf(units)
  {
    var byCode: Definitions := map[];
    for i := 0 to |units|
      invariant NoDuplicates(units[..i]) && byCode == DefinitionsOf(units[..i])
    {
      assert units[..i + 1][..i] == units[..i];
      if units[i].code in byCode {
        SharesCode(units, i);
        return Err(Duplicate(units[i].code));
      }
      NewCode(units, i);
      byCode := byCode[units[i].code := units[i]];
    }
    assert units[..|units|] == units;
    r := Ok(byCode);
  }

  lemma SharesCode(units: seq<UnitSpec>, i: nat)
    requires i < |units| && units[i].code in DefinitionsOf(units[..i])
    ensures !NoDuplicates(units)
  {
    var u := DefinitionsOf(units[..i])[units[i].code];
    var k :| 0 <= k < i && units[k] == u;
    assert units[k].code == units[i].code;
  }

  lemma NewCode(units: seq<UnitSpec>, i: nat)
    requires i < |units| && NoDuplicates(units[..i]) && units[i].code !in DefinitionsOf(units[..i])
    ensures NoDuplicates(units[..i + 1])
  {
    hide DefinitionsOf;
    forall k | 0 <= k < i ensures units[k].code != units[i].code {
      assert units[..i][k] in units[..i];
    }
  }

  lemma OneUnit(defs: Definitions, base: string, chain: seq<string>)
    requires |chain| == 1
    ensures IsChain(defs, base, chain)
  {
  }

  method ResolveAll(units: seq<UnitSpec>, defs: Definitions, base: string) returns (r: Result<UnitTable, Problem>)
    requires (forall u | u in units :: u.code in defs) && forall code | code in defs :: defs[code] in units && defs[code].code == code
    ensures r.Ok? <==> forall u | u in units :: HasWorth(defs, base, u.code)
    ensures r.Ok? ==> TableOf(r.value, defs, base) && r.value.codes == [base] + CodesBut(units, base)
    ensures r.Err? ==> Justified(defs, base, r.error)
  {
    hide WorthWithin, IsWorth, HasWorth, OnCycle, IsChain;
    var resolver := new Resolver(defs, base);
    for i := 0 to |units|
      invariant resolver.Valid() && resolver.resolving == {}
      invariant resolver.resolved.Keys <= {base} + defs.Keys
      invariant forall k | 0 <= k < i :: units[k].code in resolver.resolved
    {
      OneUnit(defs, base, [units[i].code]);
      assert [] + [units[i].code] == [units[i].code];
      var factor := resolver.Resolve(units[i].code, []);
      if factor.Err? { return Err(factor.error); }
    }
    forall u | u in units ensures HasWorth(defs, base, u.code) {
      WorthIsHad(defs, base, u.code, resolver.resolved[u.code]);
    }
    r := Ok(UnitTable(base, [base] + CodesBut(units, base), resolver.resolved));
  }

  // --- What a table promises --------------------------------------------------------------

  /** Every definition but the base's own holds of the factors. */
  lemma EquationsHold(table: UnitTable, defs: Definitions, base: string, code: string)
    requires TableOf(table, defs, base) && code in defs && code != base && defs[code].code == code
    ensures defs[code].toBase.Some? ==> table.factors[code] == defs[code].toBase.value
    ensures defs[code].toBase.None? ==>
              && defs[code].of.Some? && defs[code].of.value in {base} + defs.Keys
              && table.factors[code] == (if defs[code].times.Some? then defs[code].times.value else 1.0) * table.factors[defs[code].of.value]
    ensures table.factors[code] > 0.0
  {
    WorthAlone(defs, base, code);
    WorthIsHad(defs, base, code, table.factors[code]);
    var spec := defs[code];
    if spec.toBase.Some? {
      WorthIsUnique(defs, base, code, table.factors[code], spec.toBase.value);
    } else {
      var next := spec.of.value;
      WorthByLink(defs, base, code, next);
      WorthKnown(defs, base, next);
      assert IsWorth(defs, base, next, table.factors[next]);
      WorthIsUnique(defs, base, code, table.factors[code], SoMany(spec, table.factors[next]).value);
    }
  }

  lemma WorthKnown(defs: Definitions, base: string, code: string)
    requires HasWorth(defs, base, code)
    ensures code in {base} + defs.Keys
  {
  }

  /**
   The base's own holds if and only if it is not said to be so many of a unit that is not
   worth 1: such a base is accepted, and what it says of itself is never looked at.
   */
  lemma BaseEquationIff(table: UnitTable, defs: Definitions, base: string, of: string)
    requires TableOf(table, defs, base) && BaseIsOne(defs, base)
    requires base in defs && defs[base].toBase.None? && defs[base].of == Some(of) && of in table.factors
    ensures table.factors[base] == (if defs[base].times.Some? then defs[base].times.value else 1.0) * table.factors[of]
            <==> table.factors[of] == 1.0
  {
    BaseIsWorthOne(defs, base);
    WorthIsUnique(defs, base, base, table.factors[base], 1.0);
  }

  /** Whatever a unit is worth but 1, a base said to be one of it is accepted, and its equation fails. */
  lemma BaseEquationFails(base: string, of: string, worth: real, table: UnitTable)
    requires base != of && worth > 0.0 && worth != 1.0
    ensures var units := [UnitSpec(of, Some(worth), None, None), UnitSpec(base, None, Some(of), None)];
            var defs := DefinitionsOf(units);
            && NoDuplicates(units) && BaseIsOne(defs, base) && (forall u | u in units :: HasWorth(defs, base, u.code))
            && (TableOf(table, defs, base) ==> table.factors[base] != table.factors[of])
  {
    var units := [UnitSpec(of, Some(worth), None, None), UnitSpec(base, None, Some(of), None)];
    var defs := DefinitionsOf(units);
    assert NoDuplicates(units);
    SameDefinition(units, units[0]);
    SameDefinition(units, units[1]);
    hide IsWorth, HasWorth, DefinitionsOf;
    WorthAlone(defs, base, of);
    WorthIsHad(defs, base, of, worth);
    BaseIsWorthOne(defs, base);
    WorthIsHad(defs, base, base, 1.0);
    if TableOf(table, defs, base) {
      WorthIsUnique(defs, base, of, table.factors[of], worth);
      WorthIsUnique(defs, base, base, table.factors[base], 1.0);
    }
  }

  lemma SameDefinition(units: seq<UnitSpec>, u: UnitSpec)
    requires NoDuplicates(units) && u in units
    ensures DefinitionsOf(units)[u.code] == u
  {
    var defined := DefinitionsOf(units)[u.code];
    var i :| 0 <= i < |units| && units[i] == u;
    var j :| 0 <= j < |units| && units[j] == defined;
  }

  lemma SameDefinitions(a: seq<UnitSpec>, b: seq<UnitSpec>)
    requires NoDuplicates(a) && NoDuplicates(b) && forall u :: u in a <==> u in b
    ensures DefinitionsOf(a) == DefinitionsOf(b)
  {
    forall code | code in DefinitionsOf(a) ensures code in DefinitionsOf(b) && DefinitionsOf(b)[code] == DefinitionsOf(a)[code] {
      SameDefinition(b, DefinitionsOf(a)[code]);
    }
    forall code | code in DefinitionsOf(b) ensures code in DefinitionsOf(a) {
      SameDefinition(a, DefinitionsOf(b)[code]);
    }
  }

  /** The order of the definitions changes no factor. */
  lemma OrderDoesNotMatter(a: seq<UnitSpec>, b: seq<UnitSpec>, base: string, s: UnitTable, t: UnitTable)
    requires NoDuplicates(a) && NoDuplicates(b) && forall u :: u in a <==> u in b
    requires TableOf(s, DefinitionsOf(a), base) && TableOf(t, DefinitionsOf(b), base)
    ensures s.factors == t.factors
  {
    SameDefinitions(a, b);
    hide IsWorth, DefinitionsOf, NoDuplicates;
    forall code | code in s.factors ensures code in t.factors && s.factors[code] == t.factors[code] {
      WorthIsUnique(DefinitionsOf(a), base, code, s.factors[code], t.factors[code]);
    }
  }

  // --- Converting -------------------------------------------------------------------------

  datatype Quantity = Quantity(amount: real, unit: string)

  datatype ConversionProblem = UnknownUnit(unit: string) | NotBase(unit: string)

  predicate Usable(table: UnitTable) {
    forall code | code in table.factors :: table.factors[code] > 0.0
  }

  /** One multiplication and one division. */
  function Rescaled(amount: real, from: real, to: real): real
    requires to > 0.0
  {
    amount * from / to
  }

  function Convert(value: Quantity, unit: string, table: UnitTable): Result<Quantity, ConversionProblem>
    requires Usable(table)
  {
    if value.unit == unit then Ok(value)
    else if value.unit !in table.factors then Err(UnknownUnit(value.unit))
    else if unit !in table.factors then Err(UnknownUnit(unit))
    else Ok(Quantity(Rescaled(value.amount, table.factors[value.unit], table.factors[unit]), unit))
  }

  function ToBase(value: Quantity, table: UnitTable): Result<Quantity, ConversionProblem> {
    if value.unit !in table.factors then Err(UnknownUnit(value.unit))
    else Ok(Quantity(Rescaled(value.amount, table.factors[value.unit], 1.0), table.base))
  }

  function FromBase(value: Quantity, unit: string, table: UnitTable): Result<Quantity, ConversionProblem>
    requires Usable(table)
  {
    if value.unit != table.base then Err(NotBase(value.unit))
    else if unit !in table.factors then Err(UnknownUnit(unit))
    else Ok(Quantity(Rescaled(value.amount, 1.0, table.factors[unit]), unit))
  }

  /** A built table's factors are all positive. */
  lemma TablesAreUsable(table: UnitTable, defs: Definitions, base: string)
    requires TableOf(table, defs, base)
    ensures Usable(table)
  {
    forall code | code in table.factors ensures table.factors[code] > 0.0 {
      WorthIsPositive(defs, base, code, table.factors[code]);
    }
  }

  lemma WorthIsPositive(defs: Definitions, base: string, code: string, factor: real)
    requires IsWorth(defs, base, code, factor)
    ensures factor > 0.0
  {
    hide Multiplied;
    var n: nat :| WorthWithin(defs, base, code, n) == Some(factor);
  }

  lemma Balanced(amount: real, from: real, to: real)
    requires to > 0.0
    ensures Rescaled(amount, from, to) * to == amount * from
  {
  }

  /** The amounts before and after are worth the same. */
  lemma ConvertKeepsWorth(value: Quantity, unit: string, table: UnitTable, defs: Definitions, base: string)
    requires TableOf(table, defs, base) && Usable(table)
    ensures var r := Convert(value, unit, table);
            && (value.unit == unit ==> r == Ok(value))
            && (value.unit != unit && value.unit !in table.factors ==> r == Err(UnknownUnit(value.unit)))
            && (value.unit != unit && value.unit in table.factors && unit !in table.factors ==> r == Err(UnknownUnit(unit)))
            && (value.unit in table.factors && unit in table.factors ==>
                  r.Ok? && r.value.unit == unit && r.value.amount * table.factors[unit] == value.amount * table.factors[value.unit])
  {
    hide Rescaled, TableOf;
    if value.unit in table.factors && unit in table.factors {
      Balanced(value.amount, table.factors[value.unit], table.factors[unit]);
    }
  }

  lemma ByOne(amount: real, from: real, to: real)
    requires to > 0.0
    ensures to == 1.0 ==> Rescaled(amount, from, to) == amount * from
    ensures from == 1.0 ==> Rescaled(amount, from, to) * to == amount
  {
  }

  /** And so are those in the base unit, one of which is worth 1. */
  lemma BaseKeepsWorth(value: Quantity, unit: string, table: UnitTable)
    requires Usable(table)
    ensures var r := ToBase(value, table);
            if value.unit !in table.factors then r == Err(UnknownUnit(value.unit))
            else r.Ok? && r.value.unit == table.base && r.value.amount == value.amount * table.factors[value.unit]
    ensures var r := FromBase(value, unit, table);
            if value.unit != table.base then r == Err(NotBase(value.unit))
            else if unit !in table.factors then r == Err(UnknownUnit(unit))
            else r.Ok? && r.value.unit == unit && r.value.amount * table.factors[unit] == value.amount
  {
    if value.unit in table.factors { ByOne(value.amount, table.factors[value.unit], 1.0); }
    if unit in table.factors { ByOne(value.amount, 1.0, table.factors[unit]); }
  }

  /** One of a unit is so many of what it is defined by: of another unit, or of the base. */
  lemma OneConvertsAsDefined(table: UnitTable, defs: Definitions, base: string, code: string)
    requires TableOf(table, defs, base) && Usable(table) && code in defs && code != base && defs[code].code == code
    ensures defs[code].toBase.Some? ==>
              var r := ToBase(Quantity(1.0, code), table); r.Ok? && r.value.unit == base && r.value.amount == defs[code].toBase.value
    ensures defs[code].toBase.None? ==>
              defs[code].of.Some? && (code != defs[code].of.value ==>
                var r := Convert(Quantity(1.0, code), defs[code].of.value, table);
                && r.Ok? && r.value.unit == defs[code].of.value
                && r.value.amount == if defs[code].times.Some? then defs[code].times.value else 1.0)
  {
    hide *;
    KnownIn(table, defs, base, code);
    EquationsHold(table, defs, base, code);
    if defs[code].toBase.Some? {
      BaseKeepsWorth(Quantity(1.0, code), code, table);
    } else if code != defs[code].of.value {
      var of := defs[code].of.value;
      KnownIn(table, defs, base, of);
      OfPositive(table, of);
      ConvertKeepsWorth(Quantity(1.0, code), of, table, defs, base);
      var so := if defs[code].times.Some? then defs[code].times.value else 1.0;
      OneWorth(Convert(Quantity(1.0, code), of, table).value.amount, so, table.factors[code], table.factors[of]);
    }
  }

  lemma KnownIn(table: UnitTable, defs: Definitions, base: string, code: string)
    requires TableOf(table, defs, base) && code in {base} + defs.Keys
    ensures code in table.factors && table.base == base
  {
  }

  lemma OfPositive(table: UnitTable, code: string)
    requires Usable(table) && code in table.factors
    ensures table.factors[code] > 0.0
  {
  }

  lemma OneWorth(amount: real, so: real, worth: real, factor: real)
    requires factor > 0.0 && amount * factor == 1.0 * worth && worth == so * factor
    ensures amount == so
  {
    assert (amount - so) * factor == 0.0;
  }

  /** Through any unit or straight to the last, the answer is the same; and back again it is what it was. */
  lemma ConvertByAnyPath(value: Quantity, via: string, unit: string, table: UnitTable, defs: Definitions, base: string)
    requires TableOf(table, defs, base)
    requires Convert(value, via, table).Ok? && Convert(Convert(value, via, table).value, unit, table).Ok?
    ensures Convert(Convert(value, via, table).value, unit, table) == Convert(value, unit, table)
    ensures Convert(Convert(value, via, table).value, value.unit, table) == Ok(value)
  {
    hide Rescaled;
    TablesAreUsable(table, defs, base);
    if value.unit != via {
      var from, mid := table.factors[value.unit], table.factors[via];
      ThereAndOn(value.amount, from, mid, if unit in table.factors then table.factors[unit] else 1.0);
      ThereAndOn(value.amount, from, mid, from);
    }
  }

  lemma ThereAndOn(amount: real, from: real, mid: real, to: real)
    requires from > 0.0 && mid > 0.0 && to > 0.0
    ensures Rescaled(Rescaled(amount, from, mid), mid, to) == Rescaled(amount, from, to)
    ensures Rescaled(amount, from, from) == amount
  {
    assert amount * from / mid * mid == amount * from;
  }

  /** Converting is going to the base and from it. */
  lemma ConvertIsThroughBase(value: Quantity, unit: string, table: UnitTable, defs: Definitions, base: string)
    requires TableOf(table, defs, base) && value.unit in table.factors && unit in table.factors
    ensures ToBase(value, table).Ok? && FromBase(ToBase(value, table).value, unit, table) == Convert(value, unit, table)
  {
    hide Rescaled;
    TablesAreUsable(table, defs, base);
    ThereAndOn(value.amount, table.factors[value.unit], 1.0, table.factors[unit]);
  }
}
