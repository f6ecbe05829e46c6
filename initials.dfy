/** The initial conditions of the androgen-receptor model: for every declared
    monomer, one initial per combination of its state-site values, with all
    bond sites unbound, a parameter named after the combination, and an amount
    looked up in the table of initial amounts (0 when absent).  The builder's
    loop appends exactly `AllInitials`; the lemmas state what that holds. */
module Initials {
  import opened Patterns
  import Text

  // ---- the cartesian product, in the order `itertools.product` yields it ----

  /** `[x] + t` for every tuple `t`, in order. */
  function Prepend(x: string, ts: seq<seq<string>>): seq<seq<string>> {
    seq(|ts|, k requires 0 <= k < |ts| => [x] + ts[k])
  }

  /** Every first value `x` of `xs`, in order, with every tail, in order. */
  function Expand(xs: seq<string>, tails: seq<seq<string>>): seq<seq<string>> {
    if |xs| == 0 then [] else Prepend(xs[0], tails) + Expand(xs[1..], tails)
  }

  /** All tuples taking their `i`-th value from `lists[i]`; the last position varies fastest. */
  function Product(lists: seq<seq<string>>): seq<seq<string>> {
    if |lists| == 0 then [[]] else Expand(lists[0], Product(lists[1..]))
  }

  /** The product of the lengths. */
  function ProdLen(lists: seq<seq<string>>): nat {
    if |lists| == 0 then 1 else |lists[0]| * ProdLen(lists[1..])
  }

  /** `t` takes its `i`-th value from `lists[i]`, for every position. */
  predicate Fits(t: seq<string>, lists: seq<seq<string>>) {
    |t| == |lists| && forall i | 0 <= i < |t| :: t[i] in lists[i]
  }

  // ---- one initial ----

  function StateKeys(m: Monomer): seq<string> {
    seq(|m.siteStates|, i requires 0 <= i < |m.siteStates| => m.siteStates[i].site)
  }

  function StateLists(m: Monomer): seq<seq<string>> {
    seq(|m.siteStates|, i requires 0 <= i < |m.siteStates| => m.siteStates[i].states)
  }

  /** `(site, None)` for every site that is not a state site, in site order. */
  function UnboundConditions(sites: seq<string>, keys: seq<string>): seq<Condition> {
    if |sites| == 0 then []
    else (if sites[0] in keys then [] else [Condition(sites[0], Unbound)]) + UnboundConditions(sites[1..], keys)
  }

  /** `(keys[i], t[i])` for every state site, in key order. */
  function StateConditions(keys: seq<string>, t: seq<string>): seq<Condition>
    requires |keys| == |t|
  {
    if |keys| == 0 then []
    else StateConditions(keys[..|keys| - 1], t[..|t| - 1]) + [Condition(keys[|keys| - 1], State(t[|t| - 1]))]
  }

  /** `_<site>_<state>` for every state site, in key order. */
  function Suffix(keys: seq<string>, t: seq<string>): string
    requires |keys| == |t|
  {
    if |keys| == 0 then ""
    else Suffix(keys[..|keys| - 1], t[..|t| - 1]) + ("_" + keys[|keys| - 1] + "_" + t[|t| - 1])
  }

  function InitialPattern(m: Monomer, t: seq<string>): MonomerPattern
    requires |t| == |m.siteStates|
  {
    MonomerPattern(m.name, UnboundConditions(m.sites, StateKeys(m)) + StateConditions(StateKeys(m), t))
  }

  function InitialName(m: Monomer, t: seq<string>): string
    requires |t| == |m.siteStates|
  {
    m.name + Suffix(StateKeys(m), t) + "_0"
  }

  /** `init_params.get(name, 0)` */
  function InitialValue(amounts: map<string, real>, name: string): real {
    if name in amounts then amounts[name] else 0.0
  }

  function InitialFor(m: Monomer, amounts: map<string, real>, t: seq<string>): Initial
    requires |t| == |m.siteStates|
  {
    Initial([InitialPattern(m, t)], Parameter(InitialName(m, t), InitialValue(amounts, InitialName(m, t))))
  }

  /** Every tuple of `ts` has one value per state site. */
  predicate Widths(m: Monomer, ts: seq<seq<string>>) {
    forall k | 0 <= k < |ts| :: |ts[k]| == |m.siteStates|
  }

  function InitialsFor(m: Monomer, amounts: map<string, real>, ts: seq<seq<string>>): seq<Initial>
    requires Widths(m, ts)
  {
    seq(|ts|, k requires 0 <= k < |ts| => InitialFor(m, amounts, ts[k]))
  }

  /** The initials of one monomer, one per state combination, in product order. */
  function MonomerInitials(m: Monomer, amounts: map<string, real>): seq<Initial> {
    ProductWidths(StateLists(m));
    InitialsFor(m, amounts, Product(StateLists(m)))
  }

  /** The initials of all monomers, monomer by monomer in declaration order. */
  function AllInitials(ms: seq<Monomer>, amounts: map<string, real>): seq<Initial> {
    if |ms| == 0 then []
    else AllInitials(ms[..|ms| - 1], amounts) + MonomerInitials(ms[|ms| - 1], amounts)
  }

  /** The parameters the initials create, in order. */
  function AmountParameters(inits: seq<Initial>): seq<Parameter> {
    seq(|inits|, k requires 0 <= k < |inits| => inits[k].amount)
  }

  // ---- the product ----

  lemma ExpandFacts(xs: seq<string>, tails: seq<seq<string>>)
    ensures |Expand(xs, tails)| == |xs| * |tails|
    ensures forall t :: t in Expand(xs, tails) <==> |t| > 0 && t[0] in xs && t[1..] in tails
  {
    ExpandLength(xs, tails);
    ExpandMember(xs, tails);
  }

  lemma {:induction false} ExpandLength(xs: seq<string>, tails: seq<seq<string>>)
    ensures |Expand(xs, tails)| == |xs| * |tails|
  {
    if |xs| > 0 {
      ExpandLength(xs[1..], tails);
      assert |xs| * |tails| == |tails| + (|xs| - 1) * |tails|;
    }
  }

  lemma PrependMember(x: string, tails: seq<seq<string>>, t: seq<string>)
    ensures t in Prepend(x, tails) <==> |t| > 0 && t[0] == x && t[1..] in tails
  {
    var p := Prepend(x, tails);
    if t in p {
      var k :| 0 <= k < |tails| && p[k] == t;
      assert t[1..] == tails[k];
    }
    if |t| > 0 && t[0] == x && t[1..] in tails {
      var k :| 0 <= k < |tails| && tails[k] == t[1..];
      assert p[k] == t;
    }
  }

  lemma {:induction false} ExpandMember(xs: seq<string>, tails: seq<seq<string>>)
    ensures forall t :: t in Expand(xs, tails) <==> |t| > 0 && t[0] in xs && t[1..] in tails
  {
    if |xs| > 0 {
      ExpandMember(xs[1..], tails);
      forall t ensures t in Expand(xs, tails) <==> |t| > 0 && t[0] in xs && t[1..] in tails {
        PrependMember(xs[0], tails, t);
        if |t| > 0 && t[0] in xs && t[0] != xs[0] {
          assert t[0] in xs[1..];
        }
      }
    }
  }

  lemma {:induction false} ProductLength(lists: seq<seq<string>>)
    ensures |Product(lists)| == ProdLen(lists)
  {
    if |lists| > 0 {
      ProductLength(lists[1..]);
      ExpandFacts(lists[0], Product(lists[1..]));
    }
  }

  /** A tuple is in the product exactly when it takes each value from its list. */
  lemma {:induction false} ProductMember(lists: seq<seq<string>>)
    ensures forall t :: t in Product(lists) <==> Fits(t, lists)
  {
    if |lists| > 0 {
      var rest := lists[1..];
      ProductMember(rest);
      ExpandFacts(lists[0], Product(rest));
      forall t ensures t in Product(lists) <==> Fits(t, lists) {
        if |t| > 0 {
          FitsCons(t, lists);
        }
      }
    }
  }

  lemma FitsCons(t: seq<string>, lists: seq<seq<string>>)
    requires |t| > 0 && |lists| > 0
    ensures Fits(t, lists) <==> t[0] in lists[0] && Fits(t[1..], lists[1..])
  {
    if Fits(t, lists) {
      forall i | 0 <= i < |t[1..]| ensures t[1..][i] in lists[1..][i] {
        assert t[i + 1] in lists[i + 1];
      }
    }
    if t[0] in lists[0] && Fits(t[1..], lists[1..]) {
      forall i | 0 <= i < |t| ensures t[i] in lists[i] {
        if i > 0 {
          assert t[1..][i - 1] in lists[1..][i - 1];
        }
      }
    }
  }

  lemma ProductWidths(lists: seq<seq<string>>)
    ensures forall k | 0 <= k < |Product(lists)| :: |Product(lists)[k]| == |lists|
  {
    ProductMember(lists);
    forall k | 0 <= k < |Product(lists)| ensures |Product(lists)[k]| == |lists| {
      assert Product(lists)[k] in Product(lists);
    }
  }

  /** Each tuple of the product appears once when each list holds distinct values. */
  lemma {:induction false} ProductDistinct(lists: seq<seq<string>>)
    requires forall i | 0 <= i < |lists| :: Distinct(lists[i])
    ensures Distinct(Product(lists))
  {
    if |lists| > 0 {
      var rest := lists[1..];
      assert forall i | 0 <= i < |rest| :: rest[i] == lists[i + 1];
      ProductDistinct(rest);
      ExpandDistinct(lists[0], Product(rest));
    }
  }

  lemma {:induction false} ExpandDistinct(xs: seq<string>, tails: seq<seq<string>>)
    requires Distinct(xs) && Distinct(tails)
    ensures Distinct(Expand(xs, tails))
  {
    if |xs| > 0 {
      var p, e := Prepend(xs[0], tails), Expand(xs[1..], tails);
      ExpandDistinct(xs[1..], tails);
      ExpandFacts(xs[1..], tails);
      forall i, j | 0 <= i < j < |p| ensures p[i] != p[j] {
        assert p[i][1..] == tails[i] && p[j][1..] == tails[j];
      }
      forall i, j | 0 <= i < |p| && 0 <= j < |e| ensures p[i] != e[j] {
        assert e[j] in e;
        var k :| 0 <= k < |xs[1..]| && xs[1..][k] == e[j][0];
        assert xs[0] != xs[k + 1];
        assert p[i][0] != e[j][0];
      }
      DistinctAppend(p, e);
    }
  }

  // ---- one monomer's initials ----

  /** A monomer gets one initial per state combination: the product of the
      numbers of declared states of its state sites. */
  lemma MonomerInitialsCount(m: Monomer, amounts: map<string, real>)
    ensures |MonomerInitials(m, amounts)| == ProdLen(StateLists(m))
  {
    ProductLength(StateLists(m));
  }

  /** Each initial is the one for a state combination, and every state
      combination has its initial. */
  lemma MonomerInitialsCover(m: Monomer, amounts: map<string, real>)
    ensures forall t | Fits(t, StateLists(m)) :: |t| == |m.siteStates| && InitialFor(m, amounts, t) in MonomerInitials(m, amounts)
    ensures forall k | 0 <= k < |MonomerInitials(m, amounts)| ::
              exists t | Fits(t, StateLists(m)) :: |t| == |m.siteStates| && MonomerInitials(m, amounts)[k] == InitialFor(m, amounts, t)
  {
    var ts := Product(StateLists(m));
    var inits := MonomerInitials(m, amounts);
    ProductMember(StateLists(m));
    ProductWidths(StateLists(m));
    forall t | Fits(t, StateLists(m)) ensures |t| == |m.siteStates| && InitialFor(m, amounts, t) in inits {
      var k :| 0 <= k < |ts| && ts[k] == t;
      assert inits[k] == InitialFor(m, amounts, t);
    }
    forall k | 0 <= k < |inits|
      ensures exists t | Fits(t, StateLists(m)) :: |t| == |m.siteStates| && inits[k] == InitialFor(m, amounts, t)
    {
      assert ts[k] in ts;
    }
  }

  /** `(site, None)` for every site. */
  function AllUnbound(sites: seq<string>): seq<Condition> {
    seq(|sites|, k requires 0 <= k < |sites| => Condition(sites[k], Unbound))
  }

  lemma {:induction false} UnboundWithoutKeys(sites: seq<string>)
    ensures UnboundConditions(sites, []) == AllUnbound(sites)
  {
    if |sites| > 0 {
      UnboundWithoutKeys(sites[1..]);
      assert AllUnbound(sites) == [Condition(sites[0], Unbound)] + AllUnbound(sites[1..]);
    }
  }

  /** A monomer without state sites gets exactly one initial, named `X_0`,
      with every site unbound. */
  lemma StatelessMonomerInitial(m: Monomer, amounts: map<string, real>)
    requires |m.siteStates| == 0
    ensures MonomerInitials(m, amounts) ==
            [Initial([MonomerPattern(m.name, AllUnbound(m.sites))],
                     Parameter(m.name + "_0", InitialValue(amounts, m.name + "_0")))]
  {
    assert StateKeys(m) == [];
    assert StateLists(m) == [];
    UnboundWithoutKeys(m.sites);
    assert UnboundConditions(m.sites, StateKeys(m)) + StateConditions(StateKeys(m), []) == AllUnbound(m.sites);
    assert Product(StateLists(m)) == [[]];
    assert m.name + Suffix(StateKeys(m), []) == m.name;
    assert MonomerInitials(m, amounts) == [InitialFor(m, amounts, [])];
  }

  // ---- the pattern ----

  lemma {:induction false} ValueAtAppend(a: seq<Condition>, b: seq<Condition>, site: string)
    ensures ValueAt(a + b, site) == if ValueAt(a, site).Some? then ValueAt(a, site) else ValueAt(b, site)
  {
    if |a| == 0 {
      assert a + b == b;
    } else {
      assert (a + b)[0] == a[0];
      assert (a + b)[1..] == a[1..] + b;
      ValueAtAppend(a[1..], b, site);
    }
  }

  lemma {:induction false} UnboundValueAt(sites: seq<string>, keys: seq<string>, site: string)
    ensures site in sites && site !in keys ==> ValueAt(UnboundConditions(sites, keys), site) == Some(Unbound)
    ensures site in keys ==> ValueAt(UnboundConditions(sites, keys), site) == None
  {
    if |sites| > 0 {
      var head := if sites[0] in keys then [] else [Condition(sites[0], Unbound)];
      UnboundValueAt(sites[1..], keys, site);
      ValueAtAppend(head, UnboundConditions(sites[1..], keys), site);
      if site in sites && site != sites[0] {
        assert site in sites[1..];
      }
    }
  }

  lemma {:induction false} StateValueAtOthers(keys: seq<string>, t: seq<string>, site: string)
    requires |keys| == |t| && site !in keys
    ensures ValueAt(StateConditions(keys, t), site) == None
  {
    if |keys| > 0 {
      var n := |keys| - 1;
      StateValueAtOthers(keys[..n], t[..n], site);
      ValueAtAppend(StateConditions(keys[..n], t[..n]), [Condition(keys[n], State(t[n]))], site);
    }
  }

  lemma {:induction false} StateValueAt(keys: seq<string>, t: seq<string>, i: nat)
    requires |keys| == |t| && i < |keys| && Distinct(keys)
    ensures ValueAt(StateConditions(keys, t), keys[i]) == Some(State(t[i]))
  {
    var n := |keys| - 1;
    var prefix := StateConditions(keys[..n], t[..n]);
    ValueAtAppend(prefix, [Condition(keys[n], State(t[n]))], keys[i]);
    if i < n {
      assert Distinct(keys[..n]) by {
        forall a, b | 0 <= a < b < n ensures keys[..n][a] != keys[..n][b] { }
      }
      StateValueAt(keys[..n], t[..n], i);
    } else {
      assert keys[n] !in keys[..n] by {
        forall a | 0 <= a < n ensures keys[..n][a] != keys[n] { }
      }
      StateValueAtOthers(keys[..n], t[..n], keys[n]);
    }
  }

  /** In an initial's pattern every site that is not a state site is unbound
      and every state site holds the combination's value for it. */
  lemma InitialPatternShape(m: Monomer, t: seq<string>)
    requires |t| == |m.siteStates| && Distinct(StateKeys(m))
    ensures InitialPattern(m, t).monomer == m.name
    ensures forall i | 0 <= i < |t| :: ValueAt(InitialPattern(m, t).conditions, StateKeys(m)[i]) == Some(State(t[i]))
    ensures forall s | s in m.sites && s !in StateKeys(m) :: ValueAt(InitialPattern(m, t).conditions, s) == Some(Unbound)
  {
    var keys := StateKeys(m);
    var u, sc := UnboundConditions(m.sites, keys), StateConditions(keys, t);
    forall i | 0 <= i < |t| ensures ValueAt(u + sc, keys[i]) == Some(State(t[i])) {
      UnboundValueAt(m.sites, keys, keys[i]);
      StateValueAt(keys, t, i);
      ValueAtAppend(u, sc, keys[i]);
    }
    forall s | s in m.sites && s !in keys ensures ValueAt(u + sc, s) == Some(Unbound) {
      UnboundValueAt(m.sites, keys, s);
      ValueAtAppend(u, sc, s);
    }
  }

  // ---- the names ----

  /** No state value of the monomer contains `_`. */
  predicate PlainStates(m: Monomer) {
    forall i | 0 <= i < |m.siteStates| :: forall v | v in m.siteStates[i].states :: '_' !in v
  }

  lemma {:induction false} SuffixInjective(keys: seq<string>, t: seq<string>, u: seq<string>)
    requires |keys| == |t| == |u|
    requires forall i | 0 <= i < |t| :: '_' !in t[i] && '_' !in u[i]
    requires Suffix(keys, t) == Suffix(keys, u)
    ensures t == u
  {
    if |keys| > 0 {
      var n := |keys| - 1;
      var a := Suffix(keys[..n], t[..n]) + "_" + keys[n];
      var b := Suffix(keys[..n], u[..n]) + "_" + keys[n];
      assert Suffix(keys, t) == a + ("_" + t[n]);
      assert Suffix(keys, u) == b + ("_" + u[n]);
      Text.SplitAtLastUnderscore(a, t[n], b, u[n]);
      assert a == Suffix(keys[..n], t[..n]) + ("_" + keys[n]);
      assert b == Suffix(keys[..n], u[..n]) + ("_" + keys[n]);
      Text.CancelRight(Suffix(keys[..n], t[..n]), Suffix(keys[..n], u[..n]), "_" + keys[n]);
      SuffixInjective(keys[..n], t[..n], u[..n]);
      assert t == t[..n] + [t[n]] && u == u[..n] + [u[n]];
    }
  }

  lemma NameInjective(m: Monomer, t: seq<string>, u: seq<string>)
    requires |t| == |m.siteStates| == |u|
    requires forall i | 0 <= i < |t| :: '_' !in t[i] && '_' !in u[i]
    requires InitialName(m, t) == InitialName(m, u)
    ensures t == u
  {
    Text.CancelRight(m.name + Suffix(StateKeys(m), t), m.name + Suffix(StateKeys(m), u), "_0");
    Text.CancelLeft(m.name, Suffix(StateKeys(m), t), Suffix(StateKeys(m), u));
    SuffixInjective(StateKeys(m), t, u);
  }

  /** Within one monomer, distinct state combinations give distinct parameter
      names, provided each state list holds distinct values and no state value
      contains `_`. */
  lemma MonomerNamesDistinct(m: Monomer, amounts: map<string, real>)
    requires forall i | 0 <= i < |m.siteStates| :: Distinct(m.siteStates[i].states)
    requires PlainStates(m)
    ensures Distinct(ParameterNames(AmountParameters(MonomerInitials(m, amounts))))
  {
    var lists := StateLists(m);
    var ts := Product(lists);
    var names := ParameterNames(AmountParameters(MonomerInitials(m, amounts)));
    ProductDistinct(lists);
    ProductMember(lists);
    ProductWidths(lists);
    forall a, b | 0 <= a < b < |names| ensures names[a] != names[b] {
      assert ts[a] in ts && ts[b] in ts;
      assert names[a] == InitialName(m, ts[a]) && names[b] == InitialName(m, ts[b]);
      forall i | 0 <= i < |ts[a]| ensures '_' !in ts[a][i] && '_' !in ts[b][i] {
        assert ts[a][i] in lists[i] && ts[b][i] in lists[i];
      }
      if names[a] == names[b] {
        NameInjective(m, ts[a], ts[b]);
        assert false;
      }
    }
  }
}
