/** The complex-pattern data model shared by the rule generators: monomer
    declarations, monomer patterns with site conditions, complexes, rate
    parameters, rules and initial conditions, together with the structural
    predicates (bond pairing, monomer multisets) that the generators' lemmas
    are stated with. */
module Patterns {

  datatype Option<T> = None | Some(value: T)

  /** What a pattern says about one site: free, holding bond `id`, or in a state. */
  datatype SiteValue = Unbound | Bond(id: nat) | State(state: string)

  datatype Condition = Condition(site: string, value: SiteValue)

  /** A monomer type, by name, with its site conditions in keyword order. */
  datatype MonomerPattern = MonomerPattern(monomer: string, conditions: seq<Condition>)

  /** Monomer patterns joined into one complex (the `%` operator). */
  type Complex = seq<MonomerPattern>

  /** One entry of a monomer's `site_states` table, in declaration order. */
  datatype StateSite = StateSite(site: string, states: seq<string>)

  /** A declared monomer type: its name, its sites, and its state sites. */
  datatype Monomer = Monomer(name: string, sites: seq<string>, siteStates: seq<StateSite>)

  /** A named rate constant; its value is stored and never computed with. */
  datatype Parameter = Parameter(name: string, value: real)

  /** A rule carries one rate (irreversible) or a forward/reverse pair. */
  datatype Rate = Irreversible(k: Parameter) | Reversible(kf: Parameter, kr: Parameter)

  /** A rule: a sum of reactant complexes rewritten to a sum of product complexes. */
  datatype Rule = Rule(name: string, reactants: seq<Complex>, products: seq<Complex>, rate: Rate)

  /** An initial condition: a species pattern and the parameter holding its amount. */
  datatype Initial = Initial(pattern: Complex, amount: Parameter)

  predicate Distinct<T(==)>(s: seq<T>) {
    forall i, j | 0 <= i < j < |s| :: s[i] != s[j]
  }

  function ParameterNames(ps: seq<Parameter>): seq<string> {
    seq(|ps|, i requires 0 <= i < |ps| => ps[i].name)
  }

  function RuleNames(rs: seq<Rule>): seq<string> {
    seq(|rs|, i requires 0 <= i < |rs| => rs[i].name)
  }

  /** The registry lookup `model.monomers[name]`: the first monomer so named. */
  function Lookup(ms: seq<Monomer>, name: string): Option<Monomer> {
    if |ms| == 0 then None
    else if ms[0].name == name then Some(ms[0])
    else Lookup(ms[1..], name)
  }

  lemma {:induction false} LookupAppend(a: seq<Monomer>, b: seq<Monomer>, name: string)
    ensures Lookup(a + b, name) == if Lookup(a, name).Some? then Lookup(a, name) else Lookup(b, name)
  {
    if |a| == 0 {
      assert a + b == b;
    } else {
      assert (a + b)[0] == a[0];
      assert (a + b)[1..] == a[1..] + b;
      LookupAppend(a[1..], b, name);
    }
  }

  /** The lookup finds the first declaration carrying the name. */
  lemma {:induction false} LookupFirst(ms: seq<Monomer>, name: string, i: nat)
    requires i < |ms| && ms[i].name == name
    requires forall j | 0 <= j < i :: ms[j].name != name
    ensures Lookup(ms, name) == Some(ms[i])
  {
    if i > 0 {
      assert ms[0].name != name;
      assert forall j | 0 <= j < i - 1 :: ms[1..][j].name != name by {
        forall j | 0 <= j < i - 1 ensures ms[1..][j].name != name {
          assert ms[1..][j] == ms[j + 1];
        }
      }
      LookupFirst(ms[1..], name, i - 1);
    }
  }

  predicate HasSite(ms: seq<Monomer>, name: string, site: string) {
    Lookup(ms, name).Some? && site in Lookup(ms, name).value.sites
  }

  /** The state list declared for `site`, if `site` is a state site of `m`. */
  function StatesOf(m: Monomer, site: string): Option<seq<string>> {
    StatesIn(m.siteStates, site)
  }

  function StatesIn(ss: seq<StateSite>, site: string): Option<seq<string>> {
    if |ss| == 0 then None
    else if ss[0].site == site then Some(ss[0].states)
    else StatesIn(ss[1..], site)
  }

  /** `name` is registered, `site` is one of its state sites and `state` is a declared value of it. */
  predicate HasState(ms: seq<Monomer>, name: string, site: string, state: string) {
    HasSite(ms, name, site) &&
    StatesOf(Lookup(ms, name).value, site).Some? &&
    state in StatesOf(Lookup(ms, name).value, site).value
  }

  /** Calling a monomer pattern with one more keyword (`tf(gene=v)`): the
      site's condition is replaced where it already stands, appended otherwise. */
  function SetSite(cs: seq<Condition>, site: string, v: SiteValue): seq<Condition> {
    if |cs| == 0 then [Condition(site, v)]
    else if cs[0].site == site then [Condition(site, v)] + cs[1..]
    else [cs[0]] + SetSite(cs[1..], site, v)
  }

  function WithSite(p: MonomerPattern, site: string, v: SiteValue): MonomerPattern {
    MonomerPattern(p.monomer, SetSite(p.conditions, site, v))
  }

  /** The condition a pattern puts on `site`, if it names the site. */
  function ValueAt(cs: seq<Condition>, site: string): Option<SiteValue> {
    if |cs| == 0 then None
    else if cs[0].site == site then Some(cs[0].value)
    else ValueAt(cs[1..], site)
  }

  function ValueBondIds(v: SiteValue): multiset<nat> {
    if v.Bond? then multiset{v.id} else multiset{}
  }

  /** The bond ids a list of conditions uses, one occurrence per site. */
  function ConditionBondIds(cs: seq<Condition>): multiset<nat> {
    if |cs| == 0 then multiset{}
    else ValueBondIds(cs[0].value) + ConditionBondIds(cs[1..])
  }

  /** The bond ids a complex uses, one occurrence per site holding the bond. */
  function BondIds(c: Complex): multiset<nat> {
    if |c| == 0 then multiset{}
    else ConditionBondIds(c[0].conditions) + BondIds(c[1..])
  }

  predicate BondFree(cs: seq<Condition>) {
    forall k | 0 <= k < |cs| :: !cs[k].value.Bond?
  }

  /** Every bond id in the complex sits on exactly two of its sites: no dangling bond. */
  predicate PairedBonds(c: Complex) {
    forall id | id in BondIds(c) :: BondIds(c)[id] == 2
  }

  predicate SumPaired(s: seq<Complex>) {
    forall c | c in s :: PairedBonds(c)
  }

  /** Every complex on either side of the rule has its bonds paired. */
  predicate WellBonded(r: Rule) {
    SumPaired(r.reactants) && SumPaired(r.products)
  }

  function ComplexMonomers(c: Complex): multiset<string> {
    if |c| == 0 then multiset{} else multiset{c[0].monomer} + ComplexMonomers(c[1..])
  }

  /** The monomer types a sum of complexes is made of, with multiplicity. */
  function SumMonomers(s: seq<Complex>): multiset<string> {
    if |s| == 0 then multiset{} else ComplexMonomers(s[0]) + SumMonomers(s[1..])
  }

  /** A reversible rule carries two rates and keeps its monomers; an irreversible one carries one rate. */
  predicate RateShapeOk(r: Rule) {
    r.rate.Reversible? ==> SumMonomers(r.reactants) == SumMonomers(r.products)
  }

  /** Apart from monomer type `m`, the rule leaves the monomer multiset as it is. */
  ghost predicate ChangesOnly(r: Rule, m: string) {
    forall n | n != m :: SumMonomers(r.reactants)[n] == SumMonomers(r.products)[n]
  }

  /** The parameters a rule's rate refers to. */
  function RateParameters(r: Rate): seq<Parameter> {
    match r
    case Irreversible(k) => [k]
    case Reversible(kf, kr) => [kf, kr]
  }

  /** The rate parameters of a sequence of rules, rule by rule. */
  function AllRateParameters(rs: seq<Rule>): seq<Parameter> {
    if |rs| == 0 then [] else RateParameters(rs[0].rate) + AllRateParameters(rs[1..])
  }

  // ---- lemmas about the helpers ----

  lemma {:induction false} SetSiteBondIds(cs: seq<Condition>, site: string, v: SiteValue)
    requires BondFree(cs)
    ensures ConditionBondIds(SetSite(cs, site, v)) == ValueBondIds(v)
  {
    if |cs| == 0 {
      assert SetSite(cs, site, v) == [Condition(site, v)];
      assert [Condition(site, v)][1..] == [];
    } else if cs[0].site == site {
      var r := SetSite(cs, site, v);
      assert r[1..] == cs[1..];
      BondFreeIds(cs[1..]);
    } else {
      var r := SetSite(cs, site, v);
      assert r[1..] == SetSite(cs[1..], site, v);
      SetSiteBondIds(cs[1..], site, v);
    }
  }

  lemma {:induction false} SetSiteValueAt(cs: seq<Condition>, site: string, v: SiteValue)
    ensures ValueAt(SetSite(cs, site, v), site) == Some(v)
  {
    if |cs| > 0 && cs[0].site != site {
      SetSiteValueAt(cs[1..], site, v);
    }
  }

  lemma {:induction false} BondFreeIds(cs: seq<Condition>)
    requires BondFree(cs)
    ensures ConditionBondIds(cs) == multiset{}
  {
    if |cs| > 0 {
      BondFreeIds(cs[1..]);
    }
  }

  lemma {:induction false} BondIdsAppend(a: Complex, b: Complex)
    ensures BondIds(a + b) == BondIds(a) + BondIds(b)
  {
    if |a| == 0 {
      assert a + b == b;
    } else {
      assert (a + b)[1..] == a[1..] + b;
      BondIdsAppend(a[1..], b);
    }
  }

  lemma {:induction false} ComplexMonomersAppend(a: Complex, b: Complex)
    ensures ComplexMonomers(a + b) == ComplexMonomers(a) + ComplexMonomers(b)
  {
    if |a| == 0 {
      assert a + b == b;
    } else {
      assert (a + b)[1..] == a[1..] + b;
      ComplexMonomersAppend(a[1..], b);
    }
  }

  lemma {:induction false} SumMonomersAppend(a: seq<Complex>, b: seq<Complex>)
    ensures SumMonomers(a + b) == SumMonomers(a) + SumMonomers(b)
  {
    if |a| == 0 {
      assert a + b == b;
    } else {
      assert (a + b)[1..] == a[1..] + b;
      SumMonomersAppend(a[1..], b);
    }
  }

  lemma {:induction false} DistinctAppend<T>(a: seq<T>, b: seq<T>)
    requires Distinct(a) && Distinct(b)
    requires forall i, j | 0 <= i < |a| && 0 <= j < |b| :: a[i] != b[j]
    ensures Distinct(a + b)
  {
    forall i, j | 0 <= i < j < |a + b| ensures (a + b)[i] != (a + b)[j] {
      if j < |a| {
        assert (a + b)[i] == a[i] && (a + b)[j] == a[j];
      } else if i >= |a| {
        assert (a + b)[i] == b[i - |a|] && (a + b)[j] == b[j - |a|];
      } else {
        assert (a + b)[i] == a[i] && (a + b)[j] == b[j - |a|];
      }
    }
  }

  lemma SliceOfLeft<T>(a: seq<T>, b: seq<T>, lo: nat, hi: nat)
    requires lo <= hi <= |a|
    ensures (a + b)[lo..hi] == a[lo..hi]
  {
  }

  lemma SliceOfRight<T>(a: seq<T>, b: seq<T>, lo: nat, hi: nat)
    requires lo <= hi <= |b|
    ensures (a + b)[|a| + lo..|a| + hi] == b[lo..hi]
  {
  }

  lemma Conditions2BondIds(c0: Condition, c1: Condition)
    ensures ConditionBondIds([c0, c1]) == ValueBondIds(c0.value) + ValueBondIds(c1.value)
  {
    assert [c0, c1][1..] == [c1];
    assert [c1][1..] == [];
    assert ConditionBondIds([c1]) == ValueBondIds(c1.value) + ConditionBondIds([]);
  }

  lemma Conditions3BondIds(c0: Condition, c1: Condition, c2: Condition)
    ensures ConditionBondIds([c0, c1, c2]) == ValueBondIds(c0.value) + ValueBondIds(c1.value) + ValueBondIds(c2.value)
  {
    assert [c0, c1, c2][1..] == [c1, c2];
    Conditions2BondIds(c1, c2);
  }

  lemma Complex1(p: MonomerPattern)
    ensures BondIds([p]) == ConditionBondIds(p.conditions)
    ensures ComplexMonomers([p]) == multiset{p.monomer}
  {
    assert [p][1..] == [];
  }

  lemma Complex2(p: MonomerPattern, q: MonomerPattern)
    ensures BondIds([p, q]) == ConditionBondIds(p.conditions) + ConditionBondIds(q.conditions)
    ensures ComplexMonomers([p, q]) == multiset{p.monomer, q.monomer}
  {
    assert [p, q][1..] == [q];
    Complex1(q);
  }

  /** A complex's bond ids and monomers are those of its first pattern plus the rest's. */
  lemma ComplexCons(p: MonomerPattern, rest: Complex)
    ensures BondIds([p] + rest) == ConditionBondIds(p.conditions) + BondIds(rest)
    ensures ComplexMonomers([p] + rest) == multiset{p.monomer} + ComplexMonomers(rest)
  {
    assert ([p] + rest)[1..] == rest;
  }

  lemma UnionAssoc<T>(a: multiset<T>, b: multiset<T>, c: multiset<T>)
    ensures a + (b + c) == a + b + c
  {
  }

  lemma MultisetCons2<T>(a: T, b: T, c: T)
    ensures multiset{a} + multiset{b, c} == multiset{a, b, c}
  {
  }

  lemma MultisetCons3<T>(a: T, b: T, c: T, d: T)
    ensures multiset{a} + multiset{b, c, d} == multiset{a, b, c, d}
  {
  }

  lemma MultisetPair<T>(a: T, b: T)
    ensures multiset{a} + multiset{b} == multiset{a, b}
  {
  }

  lemma MultisetSnoc2<T>(a: T, b: T, c: T)
    ensures multiset{a, b} + multiset{c} == multiset{a, b, c}
  {
  }

  lemma MultisetSnoc3<T>(a: T, b: T, c: T, d: T)
    ensures multiset{a, b, c} + multiset{d} == multiset{a, b, c, d}
  {
  }

  lemma MultisetSingles4<T>(a: T, b: T, c: T, d: T)
    ensures multiset{a} + multiset{b} + multiset{c} + multiset{d} == multiset{a, b, c} + multiset{d}
  {
  }

  lemma Complex3(p: MonomerPattern, q: MonomerPattern, r: MonomerPattern)
    ensures BondIds([p, q, r]) == ConditionBondIds(p.conditions) + ConditionBondIds(q.conditions) + ConditionBondIds(r.conditions)
    ensures ComplexMonomers([p, q, r]) == multiset{p.monomer, q.monomer, r.monomer}
  {
    assert [p, q, r] == [p] + [q, r];
    ComplexCons(p, [q, r]);
    Complex2(q, r);
    UnionAssoc(ConditionBondIds(p.conditions), ConditionBondIds(q.conditions), ConditionBondIds(r.conditions));
    MultisetCons2(p.monomer, q.monomer, r.monomer);
  }

  lemma Complex4(p: MonomerPattern, q: MonomerPattern, r: MonomerPattern, u: MonomerPattern)
    ensures BondIds([p, q, r, u]) ==
            ConditionBondIds(p.conditions) + ConditionBondIds(q.conditions) + ConditionBondIds(r.conditions) + ConditionBondIds(u.conditions)
    ensures ComplexMonomers([p, q, r, u]) == multiset{p.monomer, q.monomer, r.monomer, u.monomer}
  {
    assert [p, q, r, u] == [p] + [q, r, u];
    ComplexCons(p, [q, r, u]);
    Complex3(q, r, u);
    UnionAssoc(ConditionBondIds(p.conditions), ConditionBondIds(q.conditions) + ConditionBondIds(r.conditions), ConditionBondIds(u.conditions));
    UnionAssoc(ConditionBondIds(p.conditions), ConditionBondIds(q.conditions), ConditionBondIds(r.conditions));
    MultisetCons3(p.monomer, q.monomer, r.monomer, u.monomer);
  }

  lemma Sum1(a: Complex)
    ensures SumMonomers([a]) == ComplexMonomers(a)
  {
    assert [a][1..] == [];
  }

  lemma Sum2(a: Complex, b: Complex)
    ensures SumMonomers([a, b]) == ComplexMonomers(a) + ComplexMonomers(b)
  {
    assert [a, b][1..] == [b];
    Sum1(b);
  }

  lemma Sum4(a: Complex, b: Complex, c: Complex, d: Complex)
    ensures SumMonomers([a, b, c, d]) == ComplexMonomers(a) + ComplexMonomers(b) + ComplexMonomers(c) + ComplexMonomers(d)
  {
    assert [a, b, c, d][1..] == [b, c, d];
    assert [b, c, d][1..] == [c, d];
    Sum2(c, d);
  }

  lemma PairedNone(c: Complex)
    requires BondIds(c) == multiset{}
    ensures PairedBonds(c)
  {
  }

  lemma PairedOne(c: Complex, i: nat)
    requires BondIds(c) == multiset{i, i}
    ensures PairedBonds(c)
  {
    forall id | id in BondIds(c) ensures BondIds(c)[id] == 2 {
      assert id == i;
    }
  }

  lemma PairedTwo(c: Complex, i: nat, j: nat)
    requires i != j && BondIds(c) == multiset{i, i} + multiset{j, j}
    ensures PairedBonds(c)
  {
    forall id | id in BondIds(c) ensures BondIds(c)[id] == 2 {
      assert id == i || id == j;
    }
  }

  lemma PairedThree(c: Complex, i: nat, j: nat, k: nat)
    requires i != j && j != k && i != k
    requires BondIds(c) == multiset{i, i} + multiset{j, j} + multiset{k, k}
    ensures PairedBonds(c)
  {
    forall id | id in BondIds(c) ensures BondIds(c)[id] == 2 {
      assert id == i || id == j || id == k;
    }
  }

  lemma KeepsMonomers(r: Rule, m: string, a: multiset<string>)
    requires SumMonomers(r.reactants) == a && SumMonomers(r.products) == a
    ensures RateShapeOk(r) && ChangesOnly(r, m)
  {
  }

  lemma AddsMonomer(r: Rule, m: string, a: multiset<string>)
    requires r.rate.Irreversible?
    requires SumMonomers(r.reactants) == a && SumMonomers(r.products) == a + multiset{m}
    ensures RateShapeOk(r) && ChangesOnly(r, m)
  {
  }

  lemma RemovesMonomer(r: Rule, m: string)
    requires r.rate.Irreversible?
    requires SumMonomers(r.reactants) == multiset{m} && SumMonomers(r.products) == multiset{}
    ensures RateShapeOk(r) && ChangesOnly(r, m)
  {
  }

  lemma TriangleIds(i: nat, j: nat)
    ensures multiset{i} + multiset{j} + multiset{j} + multiset{i} == multiset{i, i} + multiset{j, j}
  {
  }

  lemma PathIds(i: nat, j: nat)
    ensures multiset{i} + (multiset{i} + multiset{j}) + multiset{j} == multiset{i, i} + multiset{j, j}
  {
  }

  lemma ChainIds(i: nat, j: nat, k: nat)
    ensures multiset{i} + multiset{j} + multiset{i} + (multiset{j} + multiset{k}) + multiset{k} ==
            multiset{i, i} + multiset{j, j} + multiset{k, k}
  {
  }

  lemma ChainRotatedIds(i: nat, j: nat, k: nat)
    ensures multiset{i} + multiset{j} + (multiset{j} + multiset{k}) + multiset{k} + multiset{i} ==
            multiset{i, i} + multiset{j, j} + multiset{k, k}
  {
  }

  /** A hub holding bonds `i` and `j`, with one partner on each. */
  lemma PairedTriangle(p: MonomerPattern, q: MonomerPattern, r: MonomerPattern, i: nat, j: nat)
    requires i != j
    requires ConditionBondIds(p.conditions) == multiset{i} + multiset{j}
    requires ConditionBondIds(q.conditions) == multiset{j}
    requires ConditionBondIds(r.conditions) == multiset{i}
    ensures PairedBonds([p, q, r])
  {
    Complex3(p, q, r);
    TriangleIds(i, j);
    PairedTwo([p, q, r], i, j);
  }

  /** A middle pattern holding bonds `i` and `j`, one to each end. */
  lemma PairedPath(p: MonomerPattern, q: MonomerPattern, r: MonomerPattern, i: nat, j: nat)
    requires i != j
    requires ConditionBondIds(p.conditions) == multiset{i}
    requires ConditionBondIds(q.conditions) == multiset{i} + multiset{j}
    requires ConditionBondIds(r.conditions) == multiset{j}
    ensures PairedBonds([p, q, r])
  {
    Complex3(p, q, r);
    PathIds(i, j);
    PairedTwo([p, q, r], i, j);
  }

  /** A hub `p` holding bonds `i` and `j`, a leaf `q` on `i`, and a pattern `r`
      on `j` that holds a leaf `u` on `k`. */
  lemma PairedChain(p: MonomerPattern, q: MonomerPattern, r: MonomerPattern, u: MonomerPattern, i: nat, j: nat, k: nat)
    requires i != j && j != k && i != k
    requires ConditionBondIds(p.conditions) == multiset{i} + multiset{j}
    requires ConditionBondIds(q.conditions) == multiset{i}
    requires ConditionBondIds(r.conditions) == multiset{j} + multiset{k}
    requires ConditionBondIds(u.conditions) == multiset{k}
    ensures PairedBonds([p, q, r, u])
  {
    Complex4(p, q, r, u);
    ChainIds(i, j, k);
    PairedThree([p, q, r, u], i, j, k);
  }

  /** The same chain with the leaf `q` written last. */
  lemma PairedChainRotated(p: MonomerPattern, q: MonomerPattern, r: MonomerPattern, u: MonomerPattern, i: nat, j: nat, k: nat)
    requires i != j && j != k && i != k
    requires ConditionBondIds(p.conditions) == multiset{i} + multiset{j}
    requires ConditionBondIds(q.conditions) == multiset{i}
    requires ConditionBondIds(r.conditions) == multiset{j} + multiset{k}
    requires ConditionBondIds(u.conditions) == multiset{k}
    ensures PairedBonds([p, r, u, q])
  {
    Complex4(p, r, u, q);
    ChainRotatedIds(i, j, k);
    PairedThree([p, r, u, q], i, j, k);
  }

  /** Two rules at different positions sharing a name. */
  lemma SharedRuleName(rs: seq<Rule>, a: nat, b: nat)
    requires a < |rs| && b < |rs| && a != b && rs[a].name == rs[b].name
    ensures !Distinct(RuleNames(rs))
  {
    if a < b {
      assert RuleNames(rs)[a] == RuleNames(rs)[b];
    } else {
      assert RuleNames(rs)[b] == RuleNames(rs)[a];
    }
  }

  /** Two parameters at different positions sharing a name. */
  lemma SharedParameterName(ps: seq<Parameter>, a: nat, b: nat)
    requires a < b < |ps| && ps[a].name == ps[b].name
    ensures !Distinct(ParameterNames(ps))
  {
    assert ParameterNames(ps)[a] == ParameterNames(ps)[b];
  }

  lemma {:induction false} AllRateParametersAppend(a: seq<Rule>, b: seq<Rule>)
    ensures AllRateParameters(a + b) == AllRateParameters(a) + AllRateParameters(b)
  {
    if |a| == 0 {
      assert a + b == b;
    } else {
      assert (a + b)[1..] == a[1..] + b;
      AllRateParametersAppend(a[1..], b);
    }
  }

  lemma RateParameters1(r: Rule)
    ensures AllRateParameters([r]) == RateParameters(r.rate)
  {
    assert [r][1..] == [];
  }

  lemma RateParameters3(a: Rule, b: Rule, c: Rule)
    ensures AllRateParameters([a, b, c]) == RateParameters(a.rate) + RateParameters(b.rate) + RateParameters(c.rate)
  {
    assert [a, b, c][1..] == [b, c];
    assert [b, c][1..] == [c];
    RateParameters1(c);
  }

  lemma RateParameters7(rs: seq<Rule>)
    requires |rs| == 7
    ensures AllRateParameters(rs) ==
            RateParameters(rs[0].rate) + RateParameters(rs[1].rate) + RateParameters(rs[2].rate) +
            RateParameters(rs[3].rate) + RateParameters(rs[4].rate) + RateParameters(rs[5].rate) +
            RateParameters(rs[6].rate)
  {
    assert rs == [rs[0]] + [rs[1]] + [rs[2]] + [rs[3]] + [rs[4]] + [rs[5]] + [rs[6]];
    AllRateParametersAppend([rs[0]] + [rs[1]] + [rs[2]] + [rs[3]] + [rs[4]] + [rs[5]], [rs[6]]);
    AllRateParametersAppend([rs[0]] + [rs[1]] + [rs[2]] + [rs[3]] + [rs[4]], [rs[5]]);
    AllRateParametersAppend([rs[0]] + [rs[1]] + [rs[2]] + [rs[3]], [rs[4]]);
    AllRateParametersAppend([rs[0]] + [rs[1]] + [rs[2]], [rs[3]]);
    AllRateParametersAppend([rs[0]] + [rs[1]], [rs[2]]);
    AllRateParametersAppend([rs[0]], [rs[1]]);
    RateParameters1(rs[0]); RateParameters1(rs[1]); RateParameters1(rs[2]); RateParameters1(rs[3]);
    RateParameters1(rs[4]); RateParameters1(rs[5]); RateParameters1(rs[6]);
  }
}
