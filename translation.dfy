/** The translation rule template of `create_translation_rules`: for a protein
    `X` with transcript `mRNA_X`, cap binding of eIF4E, recruitment of the 40S
    and 60S ribosomal subunits, release of eIF4E, elongation, termination
    (which frees the ribosome, returns the transcript to its free form and
    makes one protein) and protein degradation.  The functions say exactly
    which ten parameters and seven rules one call emits, in order; the
    lemmas state what those guarantee. */
module Translation {
  import opened Patterns
  import Text

  function MrnaName(x: string): string { "mRNA_" + x }

  /** `mrna(eif4e=.., _40s=.., elong=..)` */
  function Mrna(m: string, eif: SiteValue, s40: SiteValue, elong: string): MonomerPattern {
    MonomerPattern(m, [Condition("eif4e", eif), Condition("_40s", s40), Condition("elong", State(elong))])
  }

  /** `eIF4E(mrna_4ebp1=..)` */
  function Eif(v: SiteValue): MonomerPattern {
    MonomerPattern("eIF4E", [Condition("mrna_4ebp1", v)])
  }

  /** `_40S(mrna=.., _60s=..)` */
  function S40(mrna: SiteValue, s60: SiteValue): MonomerPattern {
    MonomerPattern("_40S", [Condition("mrna", mrna), Condition("_60s", s60)])
  }

  /** `_60S(_40s=..)` */
  function S60(v: SiteValue): MonomerPattern {
    MonomerPattern("_60S", [Condition("_40s", v)])
  }

  // ---- the synthesised protein pattern ----

  /** Every state site of the protein has at least one declared state. */
  predicate StatesNonEmpty(prot: Monomer) {
    forall k | 0 <= k < |prot.sites| ::
      StatesOf(prot, prot.sites[k]).Some? ==> |StatesOf(prot, prot.sites[k]).value| > 0
  }

  /** A bond site is left unbound, a state site takes its first declared state. */
  function SiteDefault(ss: seq<StateSite>, site: string): SiteValue
    requires StatesIn(ss, site).Some? ==> |StatesIn(ss, site).value| > 0
  {
    match StatesIn(ss, site)
    case None => Unbound
    case Some(states) => State(states[0])
  }

  function DefaultConditions(sites: seq<string>, ss: seq<StateSite>): seq<Condition>
    requires forall k | 0 <= k < |sites| :: StatesIn(ss, sites[k]).Some? ==> |StatesIn(ss, sites[k]).value| > 0
  {
    if |sites| == 0 then []
    else [Condition(sites[0], SiteDefault(ss, sites[0]))] + DefaultConditions(sites[1..], ss)
  }

  /** The protein a termination creates and the degradation consumes. */
  function ProteinPattern(prot: Monomer): MonomerPattern
    requires StatesNonEmpty(prot)
  {
    MonomerPattern(prot.name, DefaultConditions(prot.sites, prot.siteStates))
  }

  // ---- what one call emits ----

  /** The rate arguments can be indexed as the generator indexes them. */
  predicate RatesReady(kfKr: seq<seq<real>>) {
    |kfKr| >= 3 && forall k | 0 <= k < 3 :: |kfKr[k]| >= 2
  }

  /** The monomer types and sites every emitted pattern names are declared. */
  predicate MonomersReady(ms: seq<Monomer>, prot: Monomer) {
    var m := MrnaName(prot.name);
    HasSite(ms, m, "eif4e") && HasSite(ms, m, "_40s") &&
    HasState(ms, m, "elong", "i") && HasState(ms, m, "elong", "a") &&
    HasSite(ms, "eIF4E", "mrna_4ebp1") &&
    HasSite(ms, "_40S", "mrna") && HasSite(ms, "_40S", "_60s") &&
    HasSite(ms, "_60S", "_40s")
  }

  /** What a call demands to run to its end. */
  predicate TranslationReady(ms: seq<Monomer>, prot: Monomer, kfKr: seq<seq<real>>) {
    RatesReady(kfKr) && MonomersReady(ms, prot) && StatesNonEmpty(prot)
  }

  /** The parameters one call creates, in creation order. */
  function TranslationParameters(x: string, kfKr: seq<seq<real>>, kRelease: real, kElongate: real,
                                 kTerminate: real, kDeg: real): seq<Parameter>
    requires RatesReady(kfKr)
  {
    var m := MrnaName(x);
    [Parameter("kf_" + m + "_binds_eIF4E", kfKr[0][0]),
     Parameter("kr_" + m + "_binds_eIF4E", kfKr[0][1]),
     Parameter("kf_" + m + "_eIF4E_binds_40S", kfKr[1][0]),
     Parameter("kr_" + m + "_eIF4E_binds_40S", kfKr[1][1]),
     Parameter("kf_" + m + "_eIF4E_40S_binds_60S", kfKr[2][0]),
     Parameter("kr_" + m + "_eIF4E_40S_binds_60S", kfKr[2][1]),
     Parameter("k_release_" + x, kRelease),
     Parameter("k_elongate_" + x, kElongate),
     Parameter("k_terminate_" + x, kTerminate),
     Parameter("k_deg_" + x, kDeg)]
  }

  /** eIF4E binds the free cap of the idle transcript. */
  function BindsEif(m: string, kf: Parameter, kr: Parameter): Rule {
    Rule(m + "_binds_eIF4E",
         [[Mrna(m, Unbound, Unbound, "i")], [Eif(Unbound)]],
         [[Mrna(m, Bond(1), Unbound, "i"), Eif(Bond(1))]],
         Reversible(kf, kr))
  }

  /** The 40S subunit joins the capped transcript. */
  function BindsS40(m: string, kf: Parameter, kr: Parameter): Rule {
    Rule(m + "_eIF4E_binds_40S",
         [[Mrna(m, Bond(1), Unbound, "i"), Eif(Bond(1))], [S40(Unbound, Unbound)]],
         [[Mrna(m, Bond(1), Bond(2), "i"), Eif(Bond(1)), S40(Bond(2), Unbound)]],
         Reversible(kf, kr))
  }

  /** The 60S subunit joins the 40S subunit on the transcript. */
  function BindsS60(m: string, kf: Parameter, kr: Parameter): Rule {
    Rule(m + "_eIF4E_40S_binds_60S",
         [[Mrna(m, Bond(1), Bond(2), "i"), Eif(Bond(1)), S40(Bond(2), Unbound)], [S60(Unbound)]],
         [[Mrna(m, Bond(1), Bond(2), "i"), Eif(Bond(1)), S40(Bond(2), Bond(3)), S60(Bond(3))]],
         Reversible(kf, kr))
  }

  /** The assembled ribosome lets eIF4E go. */
  function ReleasesEif(m: string, k: Parameter): Rule {
    Rule(m + "_eIF4E_40S_60S_releases_eIF4E",
         [[Mrna(m, Bond(1), Bond(2), "i"), S40(Bond(2), Bond(3)), S60(Bond(3)), Eif(Bond(1))]],
         [[Mrna(m, Unbound, Bond(2), "i"), S40(Bond(2), Bond(3)), S60(Bond(3))], [Eif(Unbound)]],
         Irreversible(k))
  }

  /** The transcript under the ribosome goes from idle to elongating. */
  function Elongates(m: string, k: Parameter): Rule {
    Rule(m + "_40S_60S_elongates",
         [[Mrna(m, Unbound, Bond(2), "i"), S40(Bond(2), Bond(3)), S60(Bond(3))]],
         [[Mrna(m, Unbound, Bond(2), "a"), S40(Bond(2), Bond(3)), S60(Bond(3))]],
         Irreversible(k))
  }

  /** Termination: the complex falls apart and one protein is made. */
  function Translates(m: string, protein: MonomerPattern, k: Parameter): Rule {
    Rule(m + "_40S_60S_translates",
         [[Mrna(m, Unbound, Bond(2), "a"), S40(Bond(2), Bond(3)), S60(Bond(3))]],
         [[Mrna(m, Unbound, Unbound, "i")], [S40(Unbound, Unbound)], [S60(Unbound)], [protein]],
         Irreversible(k))
  }

  /** The protein is degraded. */
  function Degrades(x: string, protein: MonomerPattern, k: Parameter): Rule {
    Rule(x + "_degrades", [[protein]], [], Irreversible(k))
  }

  /** The rules one call creates, in creation order, with the parameters `ps` as rates. */
  function TranslationRulesWith(m: string, x: string, protein: MonomerPattern, ps: seq<Parameter>): seq<Rule>
    requires |ps| == 10
  {
    [BindsEif(m, ps[0], ps[1]), BindsS40(m, ps[2], ps[3]), BindsS60(m, ps[4], ps[5]),
     ReleasesEif(m, ps[6]), Elongates(m, ps[7]), Translates(m, protein, ps[8]), Degrades(x, protein, ps[9])]
  }

  function TranslationRules(prot: Monomer, kfKr: seq<seq<real>>, kRelease: real, kElongate: real,
                            kTerminate: real, kDeg: real): seq<Rule>
    requires RatesReady(kfKr) && StatesNonEmpty(prot)
  {
    TranslationRulesWith(MrnaName(prot.name), prot.name, ProteinPattern(prot),
                         TranslationParameters(prot.name, kfKr, kRelease, kElongate, kTerminate, kDeg))
  }

  // ---- the protein pattern ----

  lemma {:induction false} DefaultConditionsAt(sites: seq<string>, ss: seq<StateSite>, k: nat)
    requires forall j | 0 <= j < |sites| :: StatesIn(ss, sites[j]).Some? ==> |StatesIn(ss, sites[j]).value| > 0
    requires k < |sites|
    ensures |DefaultConditions(sites, ss)| == |sites|
    ensures DefaultConditions(sites, ss)[k] == Condition(sites[k], SiteDefault(ss, sites[k]))
  {
    if k > 0 {
      assert forall j | 0 <= j < |sites[1..]| :: sites[1..][j] == sites[j + 1];
      DefaultConditionsAt(sites[1..], ss, k - 1);
    } else if |sites| > 1 {
      assert forall j | 0 <= j < |sites[1..]| :: sites[1..][j] == sites[j + 1];
      DefaultConditionsAt(sites[1..], ss, 0);
    }
  }

  /** The protein pattern names every site of the protein once, in declaration
      order, unbound for a bond site and at its first declared state for a
      state site; it holds no bond. */
  lemma ProteinPatternShape(prot: Monomer)
    requires StatesNonEmpty(prot)
    ensures var p := ProteinPattern(prot);
            p.monomer == prot.name && |p.conditions| == |prot.sites| &&
            (forall k | 0 <= k < |prot.sites| ::
               p.conditions[k].site == prot.sites[k] &&
               p.conditions[k].value == (if StatesOf(prot, prot.sites[k]).Some?
                                         then State(StatesOf(prot, prot.sites[k]).value[0]) else Unbound)) &&
            BondFree(p.conditions)
  {
    var p := ProteinPattern(prot);
    if |prot.sites| > 0 {
      DefaultConditionsAt(prot.sites, prot.siteStates, 0);
      forall k | 0 <= k < |prot.sites|
        ensures p.conditions[k] == Condition(prot.sites[k], SiteDefault(prot.siteStates, prot.sites[k]))
      {
        DefaultConditionsAt(prot.sites, prot.siteStates, k);
      }
    }
  }

  // ---- rate wiring ----

  /** The call's rules use its ten parameters as rates, each once, in creation
      order: the three binding steps take rows 0, 1 and 2 of `kf_kr` as their
      forward and reverse rates, the four one-way steps take `k_release`,
      `k_elongate`, `k_terminate` and `k_deg`. */
  lemma TranslationRates(prot: Monomer, kfKr: seq<seq<real>>, kRelease: real, kElongate: real, kTerminate: real, kDeg: real)
    requires RatesReady(kfKr) && StatesNonEmpty(prot)
    ensures var ps := TranslationParameters(prot.name, kfKr, kRelease, kElongate, kTerminate, kDeg);
            var rs := TranslationRules(prot, kfKr, kRelease, kElongate, kTerminate, kDeg);
            |ps| == 10 && |rs| == 7 &&
            (forall k | 0 <= k < 3 :: rs[k].rate.Reversible? &&
               rs[k].rate.kf.value == kfKr[k][0] && rs[k].rate.kr.value == kfKr[k][1]) &&
            rs[3].rate == Irreversible(Parameter("k_release_" + prot.name, kRelease)) &&
            rs[4].rate == Irreversible(Parameter("k_elongate_" + prot.name, kElongate)) &&
            rs[5].rate == Irreversible(Parameter("k_terminate_" + prot.name, kTerminate)) &&
            rs[6].rate == Irreversible(Parameter("k_deg_" + prot.name, kDeg)) &&
            AllRateParameters(rs) == ps
  {
    var ps := TranslationParameters(prot.name, kfKr, kRelease, kElongate, kTerminate, kDeg);
    var rs := TranslationRules(prot, kfKr, kRelease, kElongate, kTerminate, kDeg);
    RateParameters7(rs);
    assert ps == [ps[0], ps[1]] + [ps[2], ps[3]] + [ps[4], ps[5]] + [ps[6]] + [ps[7]] + [ps[8]] + [ps[9]];
  }

  // ---- the step chain ----

  /** The complex each binding step builds is, up to the order of its
      monomers, the one the next step starts from; eIF4E release changes only
      the mRNA's `eif4e` site and frees eIF4E; elongation changes only the
      mRNA's `elong` site, from `i` to `a`; termination yields a free mRNA, a
      free 40S, a free 60S and the protein, which is what the degradation
      consumes. */
  lemma TranslationChain(prot: Monomer, kfKr: seq<seq<real>>, kRelease: real, kElongate: real, kTerminate: real, kDeg: real)
    requires RatesReady(kfKr) && StatesNonEmpty(prot)
    ensures var rs := TranslationRules(prot, kfKr, kRelease, kElongate, kTerminate, kDeg);
            var m := MrnaName(prot.name);
            |rs| == 7 &&
            multiset(rs[0].products[0]) == multiset(rs[1].reactants[0]) &&
            multiset(rs[1].products[0]) == multiset(rs[2].reactants[0]) &&
            multiset(rs[2].products[0]) == multiset(rs[3].reactants[0]) &&
            multiset(rs[3].products[0]) == multiset(rs[4].reactants[0]) &&
            multiset(rs[4].products[0]) == multiset(rs[5].reactants[0]) &&
            |rs[3].reactants| == 1 && |rs[3].reactants[0]| == 4 && |rs[3].products| == 2 &&
            rs[3].products[0] == [WithSite(rs[3].reactants[0][0], "eif4e", Unbound)] + rs[3].reactants[0][1..3] &&
            rs[3].products[1] == [Eif(Unbound)] && rs[3].reactants[0][3] == Eif(Bond(1)) &&
            |rs[4].reactants| == 1 && |rs[4].reactants[0]| == 3 &&
            rs[4].products == [[WithSite(rs[4].reactants[0][0], "elong", State("a"))] + rs[4].reactants[0][1..]] &&
            ValueAt(rs[4].reactants[0][0].conditions, "elong") == Some(State("i")) &&
            rs[5].products == [[Mrna(m, Unbound, Unbound, "i")], [S40(Unbound, Unbound)], [S60(Unbound)], [ProteinPattern(prot)]] &&
            rs[6].reactants == [[ProteinPattern(prot)]] && rs[6].products == []
  {
    ChainLinks(prot, kfKr, kRelease, kElongate, kTerminate, kDeg);
    ReleaseStep(prot, kfKr, kRelease, kElongate, kTerminate, kDeg);
    ElongationStep(prot, kfKr, kRelease, kElongate, kTerminate, kDeg);
    TerminationStep(prot, kfKr, kRelease, kElongate, kTerminate, kDeg);
  }

  /** Each of the first five rules' first product complex is, as a multiset,
      the next rule's reactant complex. */
  lemma ChainLinks(prot: Monomer, kfKr: seq<seq<real>>, kRelease: real, kElongate: real, kTerminate: real, kDeg: real)
    requires RatesReady(kfKr) && StatesNonEmpty(prot)
    ensures var rs := TranslationRules(prot, kfKr, kRelease, kElongate, kTerminate, kDeg);
            |rs| == 7 &&
            multiset(rs[0].products[0]) == multiset(rs[1].reactants[0]) &&
            multiset(rs[1].products[0]) == multiset(rs[2].reactants[0]) &&
            multiset(rs[2].products[0]) == multiset(rs[3].reactants[0]) &&
            multiset(rs[3].products[0]) == multiset(rs[4].reactants[0]) &&
            multiset(rs[4].products[0]) == multiset(rs[5].reactants[0])
  {
    var rs := TranslationRules(prot, kfKr, kRelease, kElongate, kTerminate, kDeg);
    var m := MrnaName(prot.name);
    assert multiset(rs[2].products[0]) == multiset(rs[3].reactants[0]);
    MrnaSetEif(m, Bond(1), Bond(2), "i");
    MrnaSetElong(m, Unbound, Bond(2), "i");
  }

  /** Release frees the mRNA's `eif4e` site and lets go of eIF4E. */
  lemma ReleaseStep(prot: Monomer, kfKr: seq<seq<real>>, kRelease: real, kElongate: real, kTerminate: real, kDeg: real)
    requires RatesReady(kfKr) && StatesNonEmpty(prot)
    ensures var rs := TranslationRules(prot, kfKr, kRelease, kElongate, kTerminate, kDeg);
            |rs| == 7 &&
            |rs[3].reactants| == 1 && |rs[3].reactants[0]| == 4 && |rs[3].products| == 2 &&
            rs[3].products[0] == [WithSite(rs[3].reactants[0][0], "eif4e", Unbound)] + rs[3].reactants[0][1..3] &&
            rs[3].products[1] == [Eif(Unbound)] && rs[3].reactants[0][3] == Eif(Bond(1))
  {
    var rs := TranslationRules(prot, kfKr, kRelease, kElongate, kTerminate, kDeg);
    MrnaSetEif(MrnaName(prot.name), Bond(1), Bond(2), "i");
    assert rs[3].products[0] == [WithSite(rs[3].reactants[0][0], "eif4e", Unbound)] + rs[3].reactants[0][1..3];
  }

  /** Elongation moves the mRNA's `elong` site from `i` to `a` and nothing else. */
  lemma ElongationStep(prot: Monomer, kfKr: seq<seq<real>>, kRelease: real, kElongate: real, kTerminate: real, kDeg: real)
    requires RatesReady(kfKr) && StatesNonEmpty(prot)
    ensures var rs := TranslationRules(prot, kfKr, kRelease, kElongate, kTerminate, kDeg);
            |rs| == 7 &&
            |rs[4].reactants| == 1 && |rs[4].reactants[0]| == 3 &&
            rs[4].products == [[WithSite(rs[4].reactants[0][0], "elong", State("a"))] + rs[4].reactants[0][1..]] &&
            ValueAt(rs[4].reactants[0][0].conditions, "elong") == Some(State("i"))
  {
    var rs := TranslationRules(prot, kfKr, kRelease, kElongate, kTerminate, kDeg);
    var m := MrnaName(prot.name);
    MrnaSetElong(m, Unbound, Bond(2), "i");
    MrnaElong(m, Unbound, Bond(2), "i");
    assert rs[4].products[0] == [WithSite(rs[4].reactants[0][0], "elong", State("a"))] + rs[4].reactants[0][1..];
  }

  /** Termination releases a free mRNA, 40S, 60S and the protein, which the
      degradation rule consumes. */
  lemma TerminationStep(prot: Monomer, kfKr: seq<seq<real>>, kRelease: real, kElongate: real, kTerminate: real, kDeg: real)
    requires RatesReady(kfKr) && StatesNonEmpty(prot)
    ensures var rs := TranslationRules(prot, kfKr, kRelease, kElongate, kTerminate, kDeg);
            var m := MrnaName(prot.name);
            |rs| == 7 &&
            rs[5].products == [[Mrna(m, Unbound, Unbound, "i")], [S40(Unbound, Unbound)], [S60(Unbound)], [ProteinPattern(prot)]] &&
            rs[6].reactants == [[ProteinPattern(prot)]] && rs[6].products == []
  {
  }

  /** Setting `eif4e` on an mRNA pattern changes that site alone. */
  lemma MrnaSetEif(m: string, eif: SiteValue, s40: SiteValue, el: string)
    ensures WithSite(Mrna(m, eif, s40, el), "eif4e", Unbound) == Mrna(m, Unbound, s40, el)
  {
  }

  /** Setting `elong` on an mRNA pattern changes that site alone. */
  lemma MrnaSetElong(m: string, eif: SiteValue, s40: SiteValue, el: string)
    ensures WithSite(Mrna(m, eif, s40, el), "elong", State("a")) == Mrna(m, eif, s40, "a")
  {
    var cs := Mrna(m, eif, s40, el).conditions;
    assert cs[1..] == [Condition("_40s", s40), Condition("elong", State(el))];
    assert cs[1..][1..] == [Condition("elong", State(el))];
    assert SetSite(cs[1..][1..], "elong", State("a")) == [Condition("elong", State("a"))];
    assert SetSite(cs[1..], "elong", State("a")) == [Condition("_40s", s40), Condition("elong", State("a"))];
  }

  lemma MrnaElong(m: string, eif: SiteValue, s40: SiteValue, el: string)
    ensures ValueAt(Mrna(m, eif, s40, el).conditions, "elong") == Some(State(el))
  {
    var cs := Mrna(m, eif, s40, el).conditions;
    assert cs[1..] == [Condition("_40s", s40), Condition("elong", State(el))];
    assert cs[1..][1..] == [Condition("elong", State(el))];
    assert ValueAt(cs[1..][1..], "elong") == Some(State(el));
  }

  // ---- monomer conservation ----

  lemma BindsEifMonomers(m: string, kf: Parameter, kr: Parameter)
    ensures SumMonomers(BindsEif(m, kf, kr).reactants) == multiset{m, "eIF4E"}
    ensures SumMonomers(BindsEif(m, kf, kr).products) == multiset{m, "eIF4E"}
  {
    Complex1(Mrna(m, Unbound, Unbound, "i"));
    Complex1(Eif(Unbound));
    Complex2(Mrna(m, Bond(1), Unbound, "i"), Eif(Bond(1)));
    Sum2([Mrna(m, Unbound, Unbound, "i")], [Eif(Unbound)]);
    Sum1([Mrna(m, Bond(1), Unbound, "i"), Eif(Bond(1))]);
    MultisetPair(m, "eIF4E");
  }

  lemma BindsS40Monomers(m: string, kf: Parameter, kr: Parameter)
    ensures SumMonomers(BindsS40(m, kf, kr).reactants) == multiset{m, "eIF4E", "_40S"}
    ensures SumMonomers(BindsS40(m, kf, kr).products) == multiset{m, "eIF4E", "_40S"}
  {
    Complex2(Mrna(m, Bond(1), Unbound, "i"), Eif(Bond(1)));
    Complex1(S40(Unbound, Unbound));
    Complex3(Mrna(m, Bond(1), Bond(2), "i"), Eif(Bond(1)), S40(Bond(2), Unbound));
    Sum2([Mrna(m, Bond(1), Unbound, "i"), Eif(Bond(1))], [S40(Unbound, Unbound)]);
    Sum1([Mrna(m, Bond(1), Bond(2), "i"), Eif(Bond(1)), S40(Bond(2), Unbound)]);
    MultisetSnoc2(m, "eIF4E", "_40S");
  }

  lemma BindsS60Monomers(m: string, kf: Parameter, kr: Parameter)
    ensures SumMonomers(BindsS60(m, kf, kr).reactants) == multiset{m, "eIF4E", "_40S", "_60S"}
    ensures SumMonomers(BindsS60(m, kf, kr).products) == multiset{m, "eIF4E", "_40S", "_60S"}
  {
    Complex3(Mrna(m, Bond(1), Bond(2), "i"), Eif(Bond(1)), S40(Bond(2), Unbound));
    Complex1(S60(Unbound));
    Complex4(Mrna(m, Bond(1), Bond(2), "i"), Eif(Bond(1)), S40(Bond(2), Bond(3)), S60(Bond(3)));
    Sum2([Mrna(m, Bond(1), Bond(2), "i"), Eif(Bond(1)), S40(Bond(2), Unbound)], [S60(Unbound)]);
    Sum1([Mrna(m, Bond(1), Bond(2), "i"), Eif(Bond(1)), S40(Bond(2), Bond(3)), S60(Bond(3))]);
    MultisetSnoc3(m, "eIF4E", "_40S", "_60S");
  }

  lemma ReleasesEifMonomers(m: string, k: Parameter)
    ensures SumMonomers(ReleasesEif(m, k).reactants) == multiset{m, "_40S", "_60S"} + multiset{"eIF4E"}
    ensures SumMonomers(ReleasesEif(m, k).products) == multiset{m, "_40S", "_60S"} + multiset{"eIF4E"}
  {
    Complex4(Mrna(m, Bond(1), Bond(2), "i"), S40(Bond(2), Bond(3)), S60(Bond(3)), Eif(Bond(1)));
    Complex3(Mrna(m, Unbound, Bond(2), "i"), S40(Bond(2), Bond(3)), S60(Bond(3)));
    Complex1(Eif(Unbound));
    Sum1([Mrna(m, Bond(1), Bond(2), "i"), S40(Bond(2), Bond(3)), S60(Bond(3)), Eif(Bond(1))]);
    MultisetSnoc3(m, "_40S", "_60S", "eIF4E");
    Sum2([Mrna(m, Unbound, Bond(2), "i"), S40(Bond(2), Bond(3)), S60(Bond(3))], [Eif(Unbound)]);
  }

  lemma ElongatesMonomers(m: string, k: Parameter)
    ensures SumMonomers(Elongates(m, k).reactants) == multiset{m, "_40S", "_60S"}
    ensures SumMonomers(Elongates(m, k).products) == multiset{m, "_40S", "_60S"}
  {
    Complex3(Mrna(m, Unbound, Bond(2), "i"), S40(Bond(2), Bond(3)), S60(Bond(3)));
    Complex3(Mrna(m, Unbound, Bond(2), "a"), S40(Bond(2), Bond(3)), S60(Bond(3)));
    Sum1([Mrna(m, Unbound, Bond(2), "i"), S40(Bond(2), Bond(3)), S60(Bond(3))]);
    Sum1([Mrna(m, Unbound, Bond(2), "a"), S40(Bond(2), Bond(3)), S60(Bond(3))]);
  }

  lemma TranslatesMonomers(m: string, protein: MonomerPattern, k: Parameter)
    ensures SumMonomers(Translates(m, protein, k).reactants) == multiset{m, "_40S", "_60S"}
    ensures SumMonomers(Translates(m, protein, k).products) == multiset{m, "_40S", "_60S"} + multiset{protein.monomer}
  {
    Complex3(Mrna(m, Unbound, Bond(2), "a"), S40(Bond(2), Bond(3)), S60(Bond(3)));
    Sum1([Mrna(m, Unbound, Bond(2), "a"), S40(Bond(2), Bond(3)), S60(Bond(3))]);
    Complex1(Mrna(m, Unbound, Unbound, "i"));
    Complex1(S40(Unbound, Unbound));
    Complex1(S60(Unbound));
    Complex1(protein);
    Sum4([Mrna(m, Unbound, Unbound, "i")], [S40(Unbound, Unbound)], [S60(Unbound)], [protein]);
    MultisetSingles4(m, "_40S", "_60S", protein.monomer);
  }

  lemma DegradesMonomers(x: string, protein: MonomerPattern, k: Parameter)
    ensures SumMonomers(Degrades(x, protein, k).reactants) == multiset{protein.monomer}
    ensures SumMonomers(Degrades(x, protein, k).products) == multiset{}
  {
    Complex1(protein);
    Sum1([protein]);
  }

  lemma RulesConserve(m: string, x: string, protein: MonomerPattern, ps: seq<Parameter>)
    requires |ps| == 10 && protein.monomer == x
    ensures var rs := TranslationRulesWith(m, x, protein, ps);
            forall k | 0 <= k < 7 :: RateShapeOk(rs[k]) && ChangesOnly(rs[k], x)
  {
    CapConserves(m, x, ps);
    AssemblyConserves(m, x, ps);
    RibosomeConserves(m, x, protein, ps);
  }

  lemma CapConserves(m: string, x: string, ps: seq<Parameter>)
    requires |ps| == 10
    ensures RateShapeOk(BindsEif(m, ps[0], ps[1])) && ChangesOnly(BindsEif(m, ps[0], ps[1]), x)
    ensures RateShapeOk(BindsS40(m, ps[2], ps[3])) && ChangesOnly(BindsS40(m, ps[2], ps[3]), x)
  {
    BindsEifMonomers(m, ps[0], ps[1]);
    KeepsMonomers(BindsEif(m, ps[0], ps[1]), x, multiset{m, "eIF4E"});
    BindsS40Monomers(m, ps[2], ps[3]);
    KeepsMonomers(BindsS40(m, ps[2], ps[3]), x, multiset{m, "eIF4E", "_40S"});
  }

  lemma AssemblyConserves(m: string, x: string, ps: seq<Parameter>)
    requires |ps| == 10
    ensures RateShapeOk(BindsS60(m, ps[4], ps[5])) && ChangesOnly(BindsS60(m, ps[4], ps[5]), x)
    ensures RateShapeOk(ReleasesEif(m, ps[6])) && ChangesOnly(ReleasesEif(m, ps[6]), x)
  {
    BindsS60Monomers(m, ps[4], ps[5]);
    KeepsMonomers(BindsS60(m, ps[4], ps[5]), x, multiset{m, "eIF4E", "_40S", "_60S"});
    ReleasesEifMonomers(m, ps[6]);
    KeepsMonomers(ReleasesEif(m, ps[6]), x, multiset{m, "_40S", "_60S"} + multiset{"eIF4E"});
  }

  lemma RibosomeConserves(m: string, x: string, protein: MonomerPattern, ps: seq<Parameter>)
    requires |ps| == 10 && protein.monomer == x
    ensures RateShapeOk(Elongates(m, ps[7])) && ChangesOnly(Elongates(m, ps[7]), x)
    ensures RateShapeOk(Translates(m, protein, ps[8])) && ChangesOnly(Translates(m, protein, ps[8]), x)
    ensures RateShapeOk(Degrades(x, protein, ps[9])) && ChangesOnly(Degrades(x, protein, ps[9]), x)
  {
    ElongatesMonomers(m, ps[7]);
    KeepsMonomers(Elongates(m, ps[7]), x, multiset{m, "_40S", "_60S"});
    TranslatesMonomers(m, protein, ps[8]);
    AddsMonomer(Translates(m, protein, ps[8]), x, multiset{m, "_40S", "_60S"});
    DegradesMonomers(x, protein, ps[9]);
    RemovesMonomer(Degrades(x, protein, ps[9]), x);
  }

  /** Every reversible step of a call keeps its monomers, and no step creates or
      consumes anything but the protein `X`: the transcript, eIF4E and the
      ribosomal subunits are recycled; only termination makes the protein, only
      degradation consumes it. */
  lemma TranslationConserves(prot: Monomer, kfKr: seq<seq<real>>, kRelease: real, kElongate: real, kTerminate: real, kDeg: real)
    requires RatesReady(kfKr) && StatesNonEmpty(prot)
    ensures var rs := TranslationRules(prot, kfKr, kRelease, kElongate, kTerminate, kDeg);
            |rs| == 7 &&
            (forall k | 0 <= k < 7 :: RateShapeOk(rs[k]) && ChangesOnly(rs[k], prot.name)) &&
            SumMonomers(rs[5].products) == SumMonomers(rs[5].reactants) + multiset{prot.name} &&
            SumMonomers(rs[6].reactants) == multiset{prot.name} && SumMonomers(rs[6].products) == multiset{}
  {
    var m, x, protein := MrnaName(prot.name), prot.name, ProteinPattern(prot);
    var ps := TranslationParameters(x, kfKr, kRelease, kElongate, kTerminate, kDeg);
    RulesConserve(m, x, protein, ps);
    TranslatesMonomers(m, protein, ps[8]);
    DegradesMonomers(x, protein, ps[9]);
  }

  // ---- bond pairing ----

  lemma MrnaBondIds(m: string, eif: SiteValue, s40: SiteValue, el: string)
    ensures ConditionBondIds(Mrna(m, eif, s40, el).conditions) == ValueBondIds(eif) + ValueBondIds(s40)
  {
    Conditions3BondIds(Condition("eif4e", eif), Condition("_40s", s40), Condition("elong", State(el)));
  }

  lemma OneSiteBondIds(p: MonomerPattern, site: string, v: SiteValue)
    requires p.conditions == [Condition(site, v)]
    ensures ConditionBondIds(p.conditions) == ValueBondIds(v)
  {
    assert p.conditions[1..] == [];
  }

  lemma S40BondIds(a: SiteValue, b: SiteValue)
    ensures ConditionBondIds(S40(a, b).conditions) == ValueBondIds(a) + ValueBondIds(b)
  {
    Conditions2BondIds(Condition("mrna", a), Condition("_60s", b));
  }

  lemma FreePaired(p: MonomerPattern)
    requires ConditionBondIds(p.conditions) == multiset{}
    ensures PairedBonds([p])
  {
    Complex1(p);
    PairedNone([p]);
  }

  lemma CapPaired(m: string)
    ensures PairedBonds([Mrna(m, Bond(1), Unbound, "i"), Eif(Bond(1))])
  {
    MrnaBondIds(m, Bond(1), Unbound, "i");
    OneSiteBondIds(Eif(Bond(1)), "mrna_4ebp1", Bond(1));
    Complex2(Mrna(m, Bond(1), Unbound, "i"), Eif(Bond(1)));
    PairedOne([Mrna(m, Bond(1), Unbound, "i"), Eif(Bond(1))], 1);
  }

  lemma CapS40Paired(m: string)
    ensures PairedBonds([Mrna(m, Bond(1), Bond(2), "i"), Eif(Bond(1)), S40(Bond(2), Unbound)])
  {
    MrnaBondIds(m, Bond(1), Bond(2), "i");
    OneSiteBondIds(Eif(Bond(1)), "mrna_4ebp1", Bond(1));
    S40BondIds(Bond(2), Unbound);
    PairedTriangle(Mrna(m, Bond(1), Bond(2), "i"), Eif(Bond(1)), S40(Bond(2), Unbound), 2, 1);
  }

  lemma AssembledPaired(m: string)
    ensures PairedBonds([Mrna(m, Bond(1), Bond(2), "i"), Eif(Bond(1)), S40(Bond(2), Bond(3)), S60(Bond(3))])
    ensures PairedBonds([Mrna(m, Bond(1), Bond(2), "i"), S40(Bond(2), Bond(3)), S60(Bond(3)), Eif(Bond(1))])
  {
    MrnaBondIds(m, Bond(1), Bond(2), "i");
    OneSiteBondIds(Eif(Bond(1)), "mrna_4ebp1", Bond(1));
    S40BondIds(Bond(2), Bond(3));
    OneSiteBondIds(S60(Bond(3)), "_40s", Bond(3));
    PairedChain(Mrna(m, Bond(1), Bond(2), "i"), Eif(Bond(1)), S40(Bond(2), Bond(3)), S60(Bond(3)), 1, 2, 3);
    PairedChainRotated(Mrna(m, Bond(1), Bond(2), "i"), Eif(Bond(1)), S40(Bond(2), Bond(3)), S60(Bond(3)), 1, 2, 3);
  }

  lemma RibosomePaired(m: string, el: string)
    ensures PairedBonds([Mrna(m, Unbound, Bond(2), el), S40(Bond(2), Bond(3)), S60(Bond(3))])
  {
    MrnaBondIds(m, Unbound, Bond(2), el);
    S40BondIds(Bond(2), Bond(3));
    OneSiteBondIds(S60(Bond(3)), "_40s", Bond(3));
    PairedPath(Mrna(m, Unbound, Bond(2), el), S40(Bond(2), Bond(3)), S60(Bond(3)), 2, 3);
  }

  lemma FreeSpeciesPaired(m: string)
    ensures PairedBonds([Mrna(m, Unbound, Unbound, "i")]) && PairedBonds([Eif(Unbound)])
    ensures PairedBonds([S40(Unbound, Unbound)]) && PairedBonds([S60(Unbound)])
  {
    MrnaBondIds(m, Unbound, Unbound, "i");
    FreePaired(Mrna(m, Unbound, Unbound, "i"));
    OneSiteBondIds(Eif(Unbound), "mrna_4ebp1", Unbound);
    FreePaired(Eif(Unbound));
    S40BondIds(Unbound, Unbound);
    FreePaired(S40(Unbound, Unbound));
    OneSiteBondIds(S60(Unbound), "_40s", Unbound);
    FreePaired(S60(Unbound));
  }

  lemma CapWellBonded(m: string, ps: seq<Parameter>)
    requires |ps| == 10
    ensures WellBonded(BindsEif(m, ps[0], ps[1])) && WellBonded(BindsS40(m, ps[2], ps[3]))
  {
    FreeSpeciesPaired(m);
    CapPaired(m);
    CapS40Paired(m);
  }

  lemma AssemblyWellBonded(m: string, ps: seq<Parameter>)
    requires |ps| == 10
    ensures WellBonded(BindsS60(m, ps[4], ps[5])) && WellBonded(ReleasesEif(m, ps[6]))
  {
    FreeSpeciesPaired(m);
    CapS40Paired(m);
    AssembledPaired(m);
    RibosomePaired(m, "i");
  }

  lemma RibosomeWellBonded(m: string, x: string, protein: MonomerPattern, ps: seq<Parameter>)
    requires |ps| == 10 && ConditionBondIds(protein.conditions) == multiset{}
    ensures WellBonded(Elongates(m, ps[7])) && WellBonded(Translates(m, protein, ps[8]))
    ensures WellBonded(Degrades(x, protein, ps[9]))
  {
    FreePaired(protein);
    FreeSpeciesPaired(m);
    RibosomePaired(m, "i");
    RibosomePaired(m, "a");
  }

  /** Every complex a call writes down, on either side of every step, has each
      of its bonds on exactly two sites. */
  lemma TranslationWellBonded(prot: Monomer, kfKr: seq<seq<real>>, kRelease: real, kElongate: real, kTerminate: real, kDeg: real)
    requires RatesReady(kfKr) && StatesNonEmpty(prot)
    ensures var rs := TranslationRules(prot, kfKr, kRelease, kElongate, kTerminate, kDeg);
            |rs| == 7 && forall k | 0 <= k < 7 :: WellBonded(rs[k])
  {
    var m := MrnaName(prot.name);
    var ps := TranslationParameters(prot.name, kfKr, kRelease, kElongate, kTerminate, kDeg);
    ProteinPatternShape(prot);
    BondFreeIds(ProteinPattern(prot).conditions);
    CapWellBonded(m, ps);
    AssemblyWellBonded(m, ps);
    RibosomeWellBonded(m, prot.name, ProteinPattern(prot), ps);
  }

  // ---- names ----

  /** The ten parameter names of a call are pairwise different, whatever the
      protein is called: apart from each forward/reverse pair, which differ in
      their second letter, they all have different lengths. */
  lemma TranslationParameterNamesDistinct(x: string, kfKr: seq<seq<real>>, kRelease: real, kElongate: real,
                                          kTerminate: real, kDeg: real)
    requires RatesReady(kfKr)
    ensures Distinct(ParameterNames(TranslationParameters(x, kfKr, kRelease, kElongate, kTerminate, kDeg)))
  {
    var ns := ParameterNames(TranslationParameters(x, kfKr, kRelease, kElongate, kTerminate, kDeg));
    var n := |x|;
    assert |ns| == 10;
    assert |ns[0]| == n + 20 && |ns[1]| == n + 20 && ns[0][1] == 'f' && ns[1][1] == 'r';
    assert |ns[2]| == n + 24 && |ns[3]| == n + 24 && ns[2][1] == 'f' && ns[3][1] == 'r';
    assert |ns[4]| == n + 28 && |ns[5]| == n + 28 && ns[4][1] == 'f' && ns[5][1] == 'r';
    assert |ns[6]| == n + 10 && |ns[7]| == n + 11 && |ns[8]| == n + 12 && |ns[9]| == n + 6;
    forall i, j | 0 <= i < j < |ns| ensures ns[i] != ns[j] {
      if |ns[i]| == |ns[j]| {
        assert ns[i][1] != ns[j][1];
      }
    }
  }

  /** The seven rule names of a call are pairwise different, whatever the
      protein is called: they all have different lengths. */
  lemma TranslationRuleNamesDistinct(prot: Monomer, kfKr: seq<seq<real>>, kRelease: real, kElongate: real,
                                     kTerminate: real, kDeg: real)
    requires RatesReady(kfKr) && StatesNonEmpty(prot)
    ensures Distinct(RuleNames(TranslationRules(prot, kfKr, kRelease, kElongate, kTerminate, kDeg)))
  {
    var ns := RuleNames(TranslationRules(prot, kfKr, kRelease, kElongate, kTerminate, kDeg));
    var n := |prot.name|;
    assert |ns| == 7;
    assert |ns[0]| == n + 17 && |ns[1]| == n + 21 && |ns[2]| == n + 25 && |ns[3]| == n + 34;
    assert |ns[4]| == n + 23 && |ns[5]| == n + 24 && |ns[6]| == n + 9;
    forall i, j | 0 <= i < j < |ns| ensures ns[i] != ns[j] {
      assert |ns[i]| != |ns[j]|;
    }
  }

  // ---- names across calls ----

  /** Each parameter name of a call is a fixed prefix, the protein name and a
      fixed suffix, in creation order. */
  function ParameterAffixes(): seq<(string, string)> {
    [("kf_mRNA_", "_binds_eIF4E"), ("kr_mRNA_", "_binds_eIF4E"),
     ("kf_mRNA_", "_eIF4E_binds_40S"), ("kr_mRNA_", "_eIF4E_binds_40S"),
     ("kf_mRNA_", "_eIF4E_40S_binds_60S"), ("kr_mRNA_", "_eIF4E_40S_binds_60S"),
     ("k_release_", ""), ("k_elongate_", ""), ("k_terminate_", ""), ("k_deg_", "")]
  }

  /** Likewise for the rule names. */
  function RuleAffixes(): seq<(string, string)> {
    [("mRNA_", "_binds_eIF4E"), ("mRNA_", "_eIF4E_binds_40S"), ("mRNA_", "_eIF4E_40S_binds_60S"),
     ("mRNA_", "_eIF4E_40S_60S_releases_eIF4E"), ("mRNA_", "_40S_60S_elongates"),
     ("mRNA_", "_40S_60S_translates"), ("", "_degrades")]
  }

  /** Characters of a parameter name that lie in its fixed prefix and suffix. */
  function ParameterSignature(n: string): string
    requires |n| >= 3
  {
    if n[1] == '_' then [n[1], n[2]] else [n[1], n[2], n[|n| - 1], n[|n| - 3]]
  }

  /** Characters of a rule name that lie in its fixed suffix. */
  function RuleSignature(n: string): string
    requires |n| >= 8
  {
    [n[|n| - 1], n[|n| - 3], n[|n| - 8]]
  }

  lemma ParametersAffixed(x: string, kfKr: seq<seq<real>>, kRelease: real, kElongate: real, kTerminate: real, kDeg: real)
    requires RatesReady(kfKr)
    ensures var ps := TranslationParameters(x, kfKr, kRelease, kElongate, kTerminate, kDeg);
            |ps| == 10 &&
            forall k | 0 <= k < 10 :: ps[k].name == ParameterAffixes()[k].0 + x + ParameterAffixes()[k].1
  {
    var ps := TranslationParameters(x, kfKr, kRelease, kElongate, kTerminate, kDeg);
    forall k | 0 <= k < 10 ensures ps[k].name == ParameterAffixes()[k].0 + x + ParameterAffixes()[k].1 {
      if k < 6 {
        var r := if k % 2 == 0 then "kf_" else "kr_";
        var s := ParameterAffixes()[k].1;
        assert ps[k].name == r + MrnaName(x) + s;
        MrnaAffixed(r, x, s);
        assert ParameterAffixes()[k].0 == r + "mRNA_";
      } else {
        assert ps[k].name == ParameterAffixes()[k].0 + x;
      }
    }
  }

  lemma MrnaAffixed(r: string, x: string, s: string)
    ensures r + MrnaName(x) + s == (r + "mRNA_") + x + s
  {
  }

  lemma RulesAffixed(prot: Monomer, kfKr: seq<seq<real>>, kRelease: real, kElongate: real, kTerminate: real, kDeg: real)
    requires RatesReady(kfKr) && StatesNonEmpty(prot)
    ensures var rs := TranslationRules(prot, kfKr, kRelease, kElongate, kTerminate, kDeg);
            |rs| == 7 &&
            forall k | 0 <= k < 7 :: rs[k].name == RuleAffixes()[k].0 + prot.name + RuleAffixes()[k].1
  {
    assert "" + prot.name == prot.name;
  }

  function ParameterKinds(): seq<string> {
    ["f_EF", "r_EF", "f_S4", "r_S4", "f_S6", "r_S6", "_r", "_e", "_t", "_d"]
  }

  function RuleKinds(): seq<string> {
    ["EFd", "S4i", "S6i", "EFe", "stl", "sta", "sdd"]
  }

  /** The signature of an affixed name depends only on its kind. */
  lemma ParameterSignatures(x: string, k: nat)
    requires k < 10
    ensures |ParameterAffixes()[k].0 + x + ParameterAffixes()[k].1| >= 3
    ensures ParameterSignature(ParameterAffixes()[k].0 + x + ParameterAffixes()[k].1) == ParameterKinds()[k]
  {
  }

  lemma RuleSignatures(x: string, k: nat)
    requires k < 7
    ensures |RuleAffixes()[k].0 + x + RuleAffixes()[k].1| >= 8
    ensures RuleSignature(RuleAffixes()[k].0 + x + RuleAffixes()[k].1) == RuleKinds()[k]
  {
  }

  /** Different kinds have different signatures. */
  lemma KindsSigned(i: nat, j: nat)
    requires (i < 10 && j < 10 && ParameterKinds()[i] == ParameterKinds()[j]) ||
             (i < 7 && j < 7 && RuleKinds()[i] == RuleKinds()[j])
    ensures i == j
  {
  }

  /** Two calls for differently named proteins create no parameter name in
      common, so the registry never sees one twice. */
  lemma TranslationParameterNamesApart(x: string, kfKr: seq<seq<real>>, kRelease: real, kElongate: real, kTerminate: real, kDeg: real,
                                       y: string, kfKr': seq<seq<real>>, kRelease': real, kElongate': real, kTerminate': real, kDeg': real)
    requires RatesReady(kfKr) && RatesReady(kfKr') && x != y
    ensures var ps := TranslationParameters(x, kfKr, kRelease, kElongate, kTerminate, kDeg);
            var qs := TranslationParameters(y, kfKr', kRelease', kElongate', kTerminate', kDeg');
            forall i, j | 0 <= i < |ps| && 0 <= j < |qs| :: ps[i].name != qs[j].name
  {
    var ps := TranslationParameters(x, kfKr, kRelease, kElongate, kTerminate, kDeg);
    var qs := TranslationParameters(y, kfKr', kRelease', kElongate', kTerminate', kDeg');
    ParametersAffixed(x, kfKr, kRelease, kElongate, kTerminate, kDeg);
    ParametersAffixed(y, kfKr', kRelease', kElongate', kTerminate', kDeg');
    forall i, j | 0 <= i < |ps| && 0 <= j < |qs| ensures ps[i].name != qs[j].name {
      if ps[i].name == qs[j].name {
        ParameterSignatures(x, i);
        ParameterSignatures(y, j);
        KindsSigned(i, j);
        Text.CancelAffixes(ParameterAffixes()[i].0, x, y, ParameterAffixes()[i].1);
      }
    }
  }

  /** Two calls for differently named proteins create no rule name in common. */
  lemma TranslationRuleNamesApart(prot: Monomer, kfKr: seq<seq<real>>, kRelease: real, kElongate: real, kTerminate: real, kDeg: real,
                                  other: Monomer, kfKr': seq<seq<real>>, kRelease': real, kElongate': real, kTerminate': real, kDeg': real)
    requires RatesReady(kfKr) && StatesNonEmpty(prot) && RatesReady(kfKr') && StatesNonEmpty(other)
    requires prot.name != other.name
    ensures var rs := TranslationRules(prot, kfKr, kRelease, kElongate, kTerminate, kDeg);
            var qs := TranslationRules(other, kfKr', kRelease', kElongate', kTerminate', kDeg');
            forall i, j | 0 <= i < |rs| && 0 <= j < |qs| :: rs[i].name != qs[j].name
  {
    var rs := TranslationRules(prot, kfKr, kRelease, kElongate, kTerminate, kDeg);
    var qs := TranslationRules(other, kfKr', kRelease', kElongate', kTerminate', kDeg');
    RulesAffixed(prot, kfKr, kRelease, kElongate, kTerminate, kDeg);
    RulesAffixed(other, kfKr', kRelease', kElongate', kTerminate', kDeg');
    forall i, j | 0 <= i < |rs| && 0 <= j < |qs| ensures rs[i].name != qs[j].name {
      if rs[i].name == qs[j].name {
        RuleSignatures(prot.name, i);
        RuleSignatures(other.name, j);
        KindsSigned(i, j);
        Text.CancelAffixes(RuleAffixes()[i].0, prot.name, other.name, RuleAffixes()[i].1);
      }
    }
  }
}
