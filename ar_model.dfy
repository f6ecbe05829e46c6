/** The data the initial-condition loop of the androgen-receptor model runs
    over: the monomers it declares, in declaration order, and its table of
    initial amounts.  The lemmas evaluate the loop's specification on this
    data and check the declarations against what the generators demand. */
module ArModel {
  import opened Patterns
  import opened Initials
  import Transcription

  /** Ligands and receptors. */
  const Receptors: seq<Monomer> :=
    [
     Monomer("EGF", ["r", "loc"], [StateSite("loc", ["extra", "intra"])]),
     Monomer("EGFR", ["l", "d", "grb2_shc", "state", "loc"], [StateSite("state", ["u", "p"]), StateSite("loc", ["extra", "intra"])]),
     Monomer("Her2", ["d", "grb2_shc", "cpacp", "state"], [StateSite("state", ["u", "p"])]),
     Monomer("Grb2", ["sos", "shc", "egfr_her2"], []),
     Monomer("Sos", ["grb2", "ras_erk", "pi3k"], []),
     Monomer("Ras", ["sos", "gap", "raf", "state"], [StateSite("state", ["GDP", "GTP"])]),
     Monomer("Shc", ["r1", "r2", "grb2", "state"], [StateSite("state", ["u", "p"])])]

  /** Phosphatases acting on the HER2 and AR modules. */
  const Phosphatases: seq<Monomer> :=
    [
     Monomer("cPAcP", ["r1", "r2"], []),
     Monomer("sPAcP", ["r1", "r2", "loc"], [StateSite("loc", ["intra", "extra"])])]

  /** The RAS-RAF-MEK-ERK cascade. */
  const MapkCascade: seq<Monomer> :=
    [
     Monomer("GAP", ["ras"], []),
     Monomer("Raf", ["ras", "mek", "pase1", "state"], [StateSite("state", ["u", "p"])]),
     Monomer("Pase1", ["raf"], []),
     Monomer("MEK", ["raf", "erk", "pase2", "state"], [StateSite("state", ["u", "p", "pp"])]),
     Monomer("ERK", ["ar", "mek", "pase3", "sos", "ets", "ap1", "state"], [StateSite("state", ["u", "p", "pp"])]),
     Monomer("Pase2", ["mek"], []),
     Monomer("Pase3", ["erk"], [])]

  /** ERK nuclear targets. */
  const ErkTargets: seq<Monomer> :=
    [
     Monomer("ETS", ["erk", "gene", "state"], [StateSite("state", ["u", "p"])]),
     Monomer("AP1", ["erk", "gene", "state"], [StateSite("state", ["u", "p"])])]

  /** The PI3K-AKT-mTOR arm. */
  const Pi3kArm: seq<Monomer> :=
    [
     Monomer("PI3K", ["egfr_her2", "ptdins2", "sos", "state"], [StateSite("state", ["i", "act"])]),
     Monomer("PtdIns2", ["pi3k"], []),
     Monomer("PtdIns3", ["pten", "akt", "pdk1"], []),
     Monomer("PTEN", ["ptdins3"], []),
     Monomer("Akt", ["ptdins3", "pdk1", "tor", "pase7", "state"], [StateSite("state", ["i", "m", "act"])]),
     Monomer("Pdk1", ["ptdins3", "akt", "state"], [StateSite("state", ["i", "m"])]),
     Monomer("TOR", ["akt", "e4ebp1", "state"], [StateSite("state", ["i", "act"])]),
     Monomer("_4EBP1", ["eif4e", "tor", "state"], [StateSite("state", ["u", "p"])]),
     Monomer("Pase7", ["akt"], [])]

  /** The AR axis and its modifiers. */
  const ArAxis: seq<Monomer> :=
    [
     Monomer("AR", ["lig", "ar", "erk", "pase5", "gene", "state"], [StateSite("state", ["u", "p"])]),
     Monomer("T", ["b", "loc"], [StateSite("loc", ["intra", "extra"])]),
     Monomer("Rase5a", ["t"], []),
     Monomer("HSP", ["ar"], []),
     Monomer("DHT", ["b"], []),
     Monomer("Pase5", ["ar", "ets", "ap1"], []),
     Monomer("Pase6", ["ap1"], [])]

  /** Promoters (genes) and RNA polymerase. */
  const TranscriptionMachinery: seq<Monomer> :=
    [
     Monomer("RNAp", ["gene"], []),
     Monomer("g_cPAcP", ["rnap", "tf1", "tf2"], []),
     Monomer("g_sPAcP", ["rnap", "tf1", "tf2"], []),
     Monomer("g_CycD", ["rnap", "tf"], []),
     Monomer("g_PSA", ["rnap", "tf1", "tf2"], [])]

  /** Transcripts and the translation machinery. */
  const TranslationMachinery: seq<Monomer> :=
    [
     Monomer("eIF4E", ["mrna_4ebp1"], []),
     Monomer("_40S", ["mrna", "_60s"], []),
     Monomer("_60S", ["_40s"], []),
     Monomer("mRNA_cPAcP", ["eif4e", "_40s", "elong"], [StateSite("elong", ["i", "a"])]),
     Monomer("mRNA_sPAcP", ["eif4e", "_40s", "elong"], [StateSite("elong", ["i", "a"])]),
     Monomer("mRNA_CycD", ["eif4e", "_40s", "elong"], [StateSite("elong", ["i", "a"])]),
     Monomer("mRNA_PSA", ["eif4e", "_40s", "elong"], [StateSite("elong", ["i", "a"])])]

  /** Protein products. */
  const Products: seq<Monomer> :=
    [
     Monomer("CycD", [], []),
     Monomer("PSA", [], [])]

  /** The declared monomers, in declaration order. */
  const Monomers: seq<Monomer> :=
    Receptors + Phosphatases + MapkCascade + ErkTargets + Pi3kArm + ArAxis +
    TranscriptionMachinery + TranslationMachinery + Products

  const Egf: Monomer := Receptors[0]
  const Egfr: Monomer := Receptors[1]

  /** The initial amounts by parameter name. */
  const InitParams: map<string, real> :=
    map[
     "EGF_loc_extra_0" := 100.0,
     "Pase7_0" := 24.71,
     "AR_state_u_0" := 192.4,
     "HSP_0" := 486.15,
     "Rase5a_0" := 81.11,
     "Her2_state_u_0" := 131.57,
     "EGFR_state_u_loc_extra_0" := 115.41,
     "Shc_state_u_0" := 91.19,
     "Grb2_0" := 80.32,
     "Sos_0" := 35.79,
     "Ras_state_GDP_0" := 233.39,
     "Raf_state_u_0" := 76.83,
     "MEK_state_u_0" := 1572.31,
     "ERK_state_u_0" := 587.24,
     "ETS_state_u_0" := 133.52,
     "AP1_state_u_0" := 107.34,
     "Pase1_0" := 181.67,
     "Pase2_0" := 20.88,
     "Pase3_0" := 22.76,
     "Pase5_0" := 65.13,
     "Pase6_0" := 168.28,
     "GAP_0" := 60.71,
     "PI3K_state_i_0" := 174.54,
     "PtdIns2_0" := 131.27,
     "PtdIns3_0" := 119.05,
     "PTEN_0" := 123.84,
     "Akt_state_i_0" := 332.36,
     "Pdk1_state_i_0" := 190.88,
     "TOR_state_i_0" := 121.8,
     "_4EBP1_state_u_0" := 136.67,
     "eIF4E_0" := 3707.42,
     "g_PSA_0" := 3.29,
     "g_CycD_0" := 2.9,
     "g_cPAcP_0" := 0.09,
     "g_sPAcP_0" := 0.11,
     "RNAp_0" := 371.62,
     "_40S_0" := 8203.19,
     "_60S_0" := 4732.73]

  /** The product of one two-valued list: one one-value tuple per value. */
  lemma ProductOfTwo(c: string, d: string)
    ensures Product([[c, d]]) == [[c], [d]]
  {
    var unit: seq<seq<string>> := [[]];
    var lists := [[c, d]];
    assert lists[1..] == [];
    assert Product(lists[1..]) == unit;
    assert [c] + unit[0] == [c] && [d] + unit[0] == [d];
    assert Prepend(c, unit) == [[c]];
    assert Prepend(d, unit) == [[d]];
    assert [c, d][1..] == [d] && [d][1..] == [];
    assert Expand([d], unit) == [[d]];
  }

  /** The product of two two-valued lists, the second varying fastest. */
  lemma ProductOfTwoByTwo(a: string, b: string, c: string, d: string)
    ensures Product([[a, b], [c, d]]) == [[a, c], [a, d], [b, c], [b, d]]
  {
    var lists := [[a, b], [c, d]];
    assert lists[1..] == [[c, d]];
    ProductOfTwo(c, d);
    var tails := [[c], [d]];
    assert Product(lists) == Expand([a, b], tails);
    assert [a] + tails[0] == [a, c] && [a] + tails[1] == [a, d];
    assert [b] + tails[0] == [b, c] && [b] + tails[1] == [b, d];
    assert Prepend(a, tails) == [[a, c], [a, d]];
    assert Prepend(b, tails) == [[b, c], [b, d]];
    assert [a, b][1..] == [b] && [b][1..] == [];
    assert Expand([b], tails) == [[b, c], [b, d]];
  }

  lemma EgfProduct()
    ensures StateKeys(Egf) == ["loc"]
    ensures Product(StateLists(Egf)) == [["extra"], ["intra"]]
  {
    assert StateLists(Egf) == [["extra", "intra"]];
    ProductOfTwo("extra", "intra");
  }

  lemma EgfNames()
    ensures InitialName(Egf, ["extra"]) == "EGF_loc_extra_0"
    ensures InitialName(Egf, ["intra"]) == "EGF_loc_intra_0"
  {
    EgfProduct();
    assert Suffix(["loc"], ["extra"]) == "_loc_extra";
    assert Suffix(["loc"], ["intra"]) == "_loc_intra";
  }

  lemma EgfAmounts()
    ensures InitialValue(InitParams, "EGF_loc_extra_0") == 100.0
    ensures InitialValue(InitParams, "EGF_loc_intra_0") == 0.0
  {
  }

  /** `EGF` gets two initials, one per location, with `r` unbound; the
      extracellular one takes its amount from the table, the intracellular one
      has no entry and defaults to 0. */
  lemma EgfPatterns()
    ensures InitialPattern(Egf, ["extra"]) == MonomerPattern("EGF", [Condition("r", Unbound), Condition("loc", State("extra"))])
    ensures InitialPattern(Egf, ["intra"]) == MonomerPattern("EGF", [Condition("r", Unbound), Condition("loc", State("intra"))])
  {
    EgfProduct();
    assert UnboundConditions(["loc"], ["loc"]) == [];
    assert UnboundConditions(Egf.sites, ["loc"]) == [Condition("r", Unbound)];
    assert ["loc"][..0] == [] && ["extra"][..0] == [] && ["intra"][..0] == [];
    assert StateConditions(["loc"], ["extra"]) == [Condition("loc", State("extra"))];
    assert StateConditions(["loc"], ["intra"]) == [Condition("loc", State("intra"))];
  }

  lemma EgfInitials()
    ensures MonomerInitials(Egf, InitParams) ==
            [Initial([MonomerPattern("EGF", [Condition("r", Unbound), Condition("loc", State("extra"))])],
                     Parameter("EGF_loc_extra_0", 100.0)),
             Initial([MonomerPattern("EGF", [Condition("r", Unbound), Condition("loc", State("intra"))])],
                     Parameter("EGF_loc_intra_0", 0.0))]
  {
    EgfProduct();
    EgfNames();
    EgfAmounts();
    EgfPatterns();
    InitialAt(Egf, InitParams, 0, ["extra"]);
    InitialAt(Egf, InitParams, 1, ["intra"]);
  }


  lemma EgfrProduct()
    ensures StateKeys(Egfr) == ["state", "loc"]
    ensures Product(StateLists(Egfr)) ==
            [["u", "extra"], ["u", "intra"], ["p", "extra"], ["p", "intra"]]
  {
    assert StateLists(Egfr) == [["u", "p"], ["extra", "intra"]];
    ProductOfTwoByTwo("u", "p", "extra", "intra");
  }

  /** How a two-site suffix is spelled. */
  lemma SuffixOfTwo(k1: string, k2: string, v1: string, v2: string)
    ensures Suffix([k1, k2], [v1, v2]) == "_" + k1 + "_" + v1 + ("_" + k2 + "_" + v2)
  {
    assert [k1, k2][..1] == [k1] && [v1, v2][..1] == [v1];
    assert [k1][..0] == [] && [v1][..0] == [];
    assert Suffix([k1], [v1]) == "" + ("_" + k1 + "_" + v1);
    assert "" + ("_" + k1 + "_" + v1) == "_" + k1 + "_" + v1;
  }

  /** The parameter name of a monomer with two state sites. */
  lemma NameOfTwo(m: Monomer, k1: string, k2: string, v1: string, v2: string)
    requires StateKeys(m) == [k1, k2]
    ensures InitialName(m, [v1, v2]) == m.name + "_" + k1 + "_" + v1 + "_" + k2 + "_" + v2 + "_0"
  {
    SuffixOfTwo(k1, k2, v1, v2);
  }

  lemma EgfrName(v1: string, v2: string)
    ensures InitialName(Egfr, [v1, v2]) == "EGFR_state_" + v1 + "_loc_" + v2 + "_0"
  {
    EgfrProduct();
    assert Egfr.name == "EGFR";
    NameOfTwo(Egfr, "state", "loc", v1, v2);
    assert "EGFR" + "_" + "state" + "_" == "EGFR_state_";
    assert "_" + "loc" + "_" == "_loc_";
  }

  lemma EgfrSpellings()
    ensures "EGFR_state_" + "u" + "_loc_" + "extra" + "_0" == "EGFR_state_u_loc_extra_0"
    ensures "EGFR_state_" + "u" + "_loc_" + "intra" + "_0" == "EGFR_state_u_loc_intra_0"
    ensures "EGFR_state_" + "p" + "_loc_" + "extra" + "_0" == "EGFR_state_p_loc_extra_0"
    ensures "EGFR_state_" + "p" + "_loc_" + "intra" + "_0" == "EGFR_state_p_loc_intra_0"
  {
  }

  /** Only the unphosphorylated extracellular `EGFR` has a tabulated amount. */
  lemma EgfrAmounts()
    ensures InitialValue(InitParams, "EGFR_state_u_loc_extra_0") == 115.41
    ensures InitialValue(InitParams, "EGFR_state_u_loc_intra_0") == 0.0
    ensures InitialValue(InitParams, "EGFR_state_p_loc_extra_0") == 0.0
    ensures InitialValue(InitParams, "EGFR_state_p_loc_intra_0") == 0.0
  {
    EgfrUIntraUntabulated();
    EgfrPExtraUntabulated();
    EgfrPIntraUntabulated();
  }

  lemma EgfrUIntraUntabulated()
    ensures "EGFR_state_u_loc_intra_0" !in InitParams
  {
  }

  lemma EgfrPExtraUntabulated()
    ensures "EGFR_state_p_loc_extra_0" !in InitParams
  {
  }

  lemma EgfrPIntraUntabulated()
    ensures "EGFR_state_p_loc_intra_0" !in InitParams
  {
  }

  /** The `k`-th initial is the one for the `k`-th state combination. */
  lemma InitialAt(m: Monomer, amounts: map<string, real>, k: nat, t: seq<string>)
    requires k < |Product(StateLists(m))| && Product(StateLists(m))[k] == t
    ensures |t| == |m.siteStates| && k < |MonomerInitials(m, amounts)|
    ensures MonomerInitials(m, amounts)[k] == InitialFor(m, amounts, t)
  {
    ProductWidths(StateLists(m));
  }

  /** `EGFR` gets four initials, one per combination of phosphorylation state
      and location, the location varying fastest; only the unphosphorylated
      extracellular one has a tabulated amount, the others default to 0. */
  lemma EgfrInitials()
    ensures |MonomerInitials(Egfr, InitParams)| == 4
    ensures MonomerInitials(Egfr, InitParams)[0].amount == Parameter("EGFR_state_u_loc_extra_0", 115.41)
    ensures MonomerInitials(Egfr, InitParams)[1].amount == Parameter("EGFR_state_u_loc_intra_0", 0.0)
    ensures MonomerInitials(Egfr, InitParams)[2].amount == Parameter("EGFR_state_p_loc_extra_0", 0.0)
    ensures MonomerInitials(Egfr, InitParams)[3].amount == Parameter("EGFR_state_p_loc_intra_0", 0.0)
  {
    EgfrProduct();
    EgfrAmounts();
    InitialAt(Egfr, InitParams, 0, ["u", "extra"]);
    InitialAt(Egfr, InitParams, 1, ["u", "intra"]);
    InitialAt(Egfr, InitParams, 2, ["p", "extra"]);
    InitialAt(Egfr, InitParams, 3, ["p", "intra"]);
    EgfrName("u", "extra");
    EgfrName("u", "intra");
    EgfrName("p", "extra");
    EgfrName("p", "intra");
    EgfrSpellings();
  }

  /** The monomer lists distinct state sites, each with distinct values, none
      of which contains `_`. */
  predicate PlainDeclaration(m: Monomer) {
    Distinct(StateKeys(m)) && PlainStates(m) &&
    forall i | 0 <= i < |m.siteStates| :: Distinct(m.siteStates[i].states)
  }

  predicate PlainDeclarations(ms: seq<Monomer>) {
    forall k | 0 <= k < |ms| :: PlainDeclaration(ms[k])
  }

  lemma PlainAppend(a: seq<Monomer>, b: seq<Monomer>)
    requires PlainDeclarations(a) && PlainDeclarations(b)
    ensures PlainDeclarations(a + b)
  {
    forall k | 0 <= k < |a + b| ensures PlainDeclaration((a + b)[k]) {
      if k < |a| {
        assert (a + b)[k] == a[k];
      } else {
        assert (a + b)[k] == b[k - |a|];
      }
    }
  }

  // The Plain* lemmas below check each declaration group a few entries at a
  // time only to keep every proof obligation small; the split follows no
  // structure of the declarations themselves.
  lemma PlainReceptorsLow(k: nat)
    requires 0 <= k < 2
    ensures PlainDeclaration(Receptors[k])
  {
    if k == 0 { assert PlainDeclaration(Receptors[0]); }
    else if k == 1 { assert PlainDeclaration(Receptors[1]); }
  }

  lemma PlainReceptorsMid(k: nat)
    requires 2 <= k < 4
    ensures PlainDeclaration(Receptors[k])
  {
    if k == 2 { assert PlainDeclaration(Receptors[2]); }
    else if k == 3 { assert PlainDeclaration(Receptors[3]); }
  }

  lemma PlainReceptorsHigh(k: nat)
    requires 4 <= k < 7
    ensures PlainDeclaration(Receptors[k])
  {
    if k == 4 { assert PlainDeclaration(Receptors[4]); }
    else if k == 5 { assert PlainDeclaration(Receptors[5]); }
    else if k == 6 { assert PlainDeclaration(Receptors[6]); }
  }

  lemma PlainReceptors()
    ensures PlainDeclarations(Receptors)
  {
    forall k | 0 <= k < |Receptors| ensures PlainDeclaration(Receptors[k]) {
      if k < 2 { PlainReceptorsLow(k); } else if k < 4 { PlainReceptorsMid(k); } else { PlainReceptorsHigh(k); }
    }
  }


  lemma PlainPhosphatases()
    ensures PlainDeclarations(Phosphatases)
  {
    forall k | 0 <= k < |Phosphatases| ensures PlainDeclaration(Phosphatases[k]) {
      if k == 0 { assert PlainDeclaration(Phosphatases[0]); }
      else if k == 1 { assert PlainDeclaration(Phosphatases[1]); }
    }
  }

  lemma PlainMapkCascadeLow(k: nat)
    requires 0 <= k < 4
    ensures PlainDeclaration(MapkCascade[k])
  {
    if k == 0 { assert PlainDeclaration(MapkCascade[0]); }
    else if k == 1 { assert PlainDeclaration(MapkCascade[1]); }
    else if k == 2 { assert PlainDeclaration(MapkCascade[2]); }
    else if k == 3 { assert PlainDeclaration(MapkCascade[3]); }
  }

  lemma PlainMapkCascadeHigh(k: nat)
    requires 4 <= k < 7
    ensures PlainDeclaration(MapkCascade[k])
  {
    if k == 4 { assert PlainDeclaration(MapkCascade[4]); }
    else if k == 5 { assert PlainDeclaration(MapkCascade[5]); }
    else if k == 6 { assert PlainDeclaration(MapkCascade[6]); }
  }

  lemma PlainMapkCascade()
    ensures PlainDeclarations(MapkCascade)
  {
    forall k | 0 <= k < |MapkCascade| ensures PlainDeclaration(MapkCascade[k]) {
      if k < 4 { PlainMapkCascadeLow(k); } else { PlainMapkCascadeHigh(k); }
    }
  }


  lemma PlainErkTargets()
    ensures PlainDeclarations(ErkTargets)
  {
    forall k | 0 <= k < |ErkTargets| ensures PlainDeclaration(ErkTargets[k]) {
      if k == 0 { assert PlainDeclaration(ErkTargets[0]); }
      else if k == 1 { assert PlainDeclaration(ErkTargets[1]); }
    }
  }

  lemma PlainPi3kArmLow(k: nat)
    requires 0 <= k < 5
    ensures PlainDeclaration(Pi3kArm[k])
  {
    if k == 0 { assert PlainDeclaration(Pi3kArm[0]); }
    else if k == 1 { assert PlainDeclaration(Pi3kArm[1]); }
    else if k == 2 { assert PlainDeclaration(Pi3kArm[2]); }
    else if k == 3 { assert PlainDeclaration(Pi3kArm[3]); }
    else if k == 4 { assert PlainDeclaration(Pi3kArm[4]); }
  }

  lemma PlainPi3kArmHigh(k: nat)
    requires 5 <= k < 9
    ensures PlainDeclaration(Pi3kArm[k])
  {
    if k == 5 { assert PlainDeclaration(Pi3kArm[5]); }
    else if k == 6 { assert PlainDeclaration(Pi3kArm[6]); }
    else if k == 7 { assert PlainDeclaration(Pi3kArm[7]); }
    else if k == 8 { assert PlainDeclaration(Pi3kArm[8]); }
  }

  lemma PlainPi3kArm()
    ensures PlainDeclarations(Pi3kArm)
  {
    forall k | 0 <= k < |Pi3kArm| ensures PlainDeclaration(Pi3kArm[k]) {
      if k < 5 { PlainPi3kArmLow(k); } else { PlainPi3kArmHigh(k); }
    }
  }


  lemma PlainArAxisLow(k: nat)
    requires 0 <= k < 4
    ensures PlainDeclaration(ArAxis[k])
  {
    if k == 0 { assert PlainDeclaration(ArAxis[0]); }
    else if k == 1 { assert PlainDeclaration(ArAxis[1]); }
    else if k == 2 { assert PlainDeclaration(ArAxis[2]); }
    else if k == 3 { assert PlainDeclaration(ArAxis[3]); }
  }

  lemma PlainArAxisHigh(k: nat)
    requires 4 <= k < 7
    ensures PlainDeclaration(ArAxis[k])
  {
    if k == 4 { assert PlainDeclaration(ArAxis[4]); }
    else if k == 5 { assert PlainDeclaration(ArAxis[5]); }
    else if k == 6 { assert PlainDeclaration(ArAxis[6]); }
  }

  lemma PlainArAxis()
    ensures PlainDeclarations(ArAxis)
  {
    forall k | 0 <= k < |ArAxis| ensures PlainDeclaration(ArAxis[k]) {
      if k < 4 { PlainArAxisLow(k); } else { PlainArAxisHigh(k); }
    }
  }


  lemma PlainTranscriptionMachineryLow(k: nat)
    requires 0 <= k < 3
    ensures PlainDeclaration(TranscriptionMachinery[k])
  {
    if k == 0 { assert PlainDeclaration(TranscriptionMachinery[0]); }
    else if k == 1 { assert PlainDeclaration(TranscriptionMachinery[1]); }
    else if k == 2 { assert PlainDeclaration(TranscriptionMachinery[2]); }
  }

  lemma PlainTranscriptionMachineryHigh(k: nat)
    requires 3 <= k < 5
    ensures PlainDeclaration(TranscriptionMachinery[k])
  {
    if k == 3 { assert PlainDeclaration(TranscriptionMachinery[3]); }
    else if k == 4 { assert PlainDeclaration(TranscriptionMachinery[4]); }
  }

  lemma PlainTranscriptionMachinery()
    ensures PlainDeclarations(TranscriptionMachinery)
  {
    forall k | 0 <= k < |TranscriptionMachinery| ensures PlainDeclaration(TranscriptionMachinery[k]) {
      if k < 3 { PlainTranscriptionMachineryLow(k); } else { PlainTranscriptionMachineryHigh(k); }
    }
  }


  lemma PlainTranslationMachineryLow(k: nat)
    requires 0 <= k < 4
    ensures PlainDeclaration(TranslationMachinery[k])
  {
    if k == 0 { assert PlainDeclaration(TranslationMachinery[0]); }
    else if k == 1 { assert PlainDeclaration(TranslationMachinery[1]); }
    else if k == 2 { assert PlainDeclaration(TranslationMachinery[2]); }
    else if k == 3 { assert PlainDeclaration(TranslationMachinery[3]); }
  }

  lemma PlainTranslationMachineryHigh(k: nat)
    requires 4 <= k < 7
    ensures PlainDeclaration(TranslationMachinery[k])
  {
    if k == 4 { assert PlainDeclaration(TranslationMachinery[4]); }
    else if k == 5 { assert PlainDeclaration(TranslationMachinery[5]); }
    else if k == 6 { assert PlainDeclaration(TranslationMachinery[6]); }
  }

  lemma PlainTranslationMachinery()
    ensures PlainDeclarations(TranslationMachinery)
  {
    forall k | 0 <= k < |TranslationMachinery| ensures PlainDeclaration(TranslationMachinery[k]) {
      if k < 4 { PlainTranslationMachineryLow(k); } else { PlainTranslationMachineryHigh(k); }
    }
  }


  lemma PlainProducts()
    ensures PlainDeclarations(Products)
  {
    forall k | 0 <= k < |Products| ensures PlainDeclaration(Products[k]) {
      if k == 0 { assert PlainDeclaration(Products[0]); }
      else if k == 1 { assert PlainDeclaration(Products[1]); }
    }
  }
  /** Every declared monomer lists distinct state sites, each with distinct
      values, none of which contains `_`. */
  lemma DeclarationsPlain()
    ensures PlainDeclarations(Monomers)
  {
    PlainReceptors();
    PlainPhosphatases();
    PlainAppend(Receptors, Phosphatases);
    PlainMapkCascade();
    PlainAppend(Receptors + Phosphatases, MapkCascade);
    PlainErkTargets();
    PlainAppend(Receptors + Phosphatases + MapkCascade, ErkTargets);
    PlainPi3kArm();
    PlainAppend(Receptors + Phosphatases + MapkCascade + ErkTargets, Pi3kArm);
    PlainArAxis();
    PlainAppend(Receptors + Phosphatases + MapkCascade + ErkTargets + Pi3kArm, ArAxis);
    PlainTranscriptionMachinery();
    PlainAppend(Receptors + Phosphatases + MapkCascade + ErkTargets + Pi3kArm + ArAxis, TranscriptionMachinery);
    PlainTranslationMachinery();
    PlainAppend(Receptors + Phosphatases + MapkCascade + ErkTargets + Pi3kArm + ArAxis + TranscriptionMachinery, TranslationMachinery);
    PlainProducts();
    PlainAppend(Receptors + Phosphatases + MapkCascade + ErkTargets + Pi3kArm + ArAxis + TranscriptionMachinery + TranslationMachinery, Products);
  }

  /** Within every declared monomer, distinct state combinations give
      distinct initial-amount parameter names. */
  lemma InitialNamesDistinct()
    ensures forall k | 0 <= k < |Monomers| ::
              Distinct(ParameterNames(AmountParameters(MonomerInitials(Monomers[k], InitParams))))
  {
    DeclarationsPlain();
    forall k | 0 <= k < |Monomers|
      ensures Distinct(ParameterNames(AmountParameters(MonomerInitials(Monomers[k], InitParams))))
    {
      assert PlainDeclaration(Monomers[k]);
      MonomerNamesDistinct(Monomers[k], InitParams);
    }
  }

  /** No monomer of `ms` has a name starting with `g`, the prefix of gene names. */
  predicate NoGene(ms: seq<Monomer>) {
    forall k | 0 <= k < |ms| :: |ms[k].name| > 0 && ms[k].name[0] != 'g'
  }

  /** Looking a gene name up skips a block of monomers none of which is a gene. */
  lemma {:induction false} LookupPastNoGene(front: seq<Monomer>, back: seq<Monomer>, name: string)
    requires NoGene(front) && |name| > 0 && name[0] == 'g'
    ensures Lookup(front + back, name) == Lookup(back, name)
  {
    if |front| > 0 {
      assert (front + back)[0] == front[0];
      assert (front + back)[1..] == front[1..] + back;
      assert front[0].name != name by { assert front[0].name[0] != name[0]; }
      assert NoGene(front[1..]) by {
        forall k | 0 <= k < |front[1..]| ensures |front[1..][k].name| > 0 && front[1..][k].name[0] != 'g' {
          assert front[1..][k] == front[k + 1];
        }
      }
      LookupPastNoGene(front[1..], back, name);
    } else {
      assert front + back == back;
    }
  }

  lemma NoGeneAppend(a: seq<Monomer>, b: seq<Monomer>)
    requires NoGene(a) && NoGene(b)
    ensures NoGene(a + b)
  {
    forall k | 0 <= k < |a + b| ensures |(a + b)[k].name| > 0 && (a + b)[k].name[0] != 'g' {
      if k < |a| {
        assert (a + b)[k] == a[k];
      } else {
        assert (a + b)[k] == b[k - |a|];
      }
    }
  }

  /** The monomers declared before the transcription machinery. */
  lemma SignallingNoGene()
    ensures NoGene(Receptors + Phosphatases + MapkCascade)
  {
    assert NoGene(Receptors);
    assert NoGene(Phosphatases);
    NoGeneAppend(Receptors, Phosphatases);
    assert NoGene(MapkCascade);
    NoGeneAppend(Receptors + Phosphatases, MapkCascade);
  }

  lemma FrontNoGene()
    ensures NoGene(Receptors + Phosphatases + MapkCascade + ErkTargets + Pi3kArm + ArAxis)
  {
    SignallingNoGene();
    assert NoGene(ErkTargets);
    NoGeneAppend(Receptors + Phosphatases + MapkCascade, ErkTargets);
    assert NoGene(Pi3kArm);
    NoGeneAppend(Receptors + Phosphatases + MapkCascade + ErkTargets, Pi3kArm);
    assert NoGene(ArAxis);
    NoGeneAppend(Receptors + Phosphatases + MapkCascade + ErkTargets + Pi3kArm, ArAxis);
  }

  /** Each gene name is found at its declaration in the transcription group. */
  lemma GeneLookup()
    ensures Lookup(Monomers, "g_cPAcP") == Some(TranscriptionMachinery[1])
    ensures Lookup(Monomers, "g_sPAcP") == Some(TranscriptionMachinery[2])
    ensures Lookup(Monomers, "g_CycD") == Some(TranscriptionMachinery[3])
    ensures Lookup(Monomers, "g_PSA") == Some(TranscriptionMachinery[4])
  {
    var front := Receptors + Phosphatases + MapkCascade + ErkTargets + Pi3kArm + ArAxis;
    var back := TranslationMachinery + Products;
    assert Monomers == front + (TranscriptionMachinery + back);
    FrontNoGene();
    GeneAt("g_cPAcP", 1, front, back);
    GeneAt("g_sPAcP", 2, front, back);
    GeneAt("g_CycD", 3, front, back);
    GeneAt("g_PSA", 4, front, back);
  }

  lemma GeneAt(name: string, i: nat, front: seq<Monomer>, back: seq<Monomer>)
    requires NoGene(front) && |name| > 0 && name[0] == 'g'
    requires i < |TranscriptionMachinery| && TranscriptionMachinery[i].name == name
    requires forall j | 0 <= j < i :: TranscriptionMachinery[j].name != name
    ensures Lookup(front + (TranscriptionMachinery + back), name) == Some(TranscriptionMachinery[i])
  {
    LookupPastNoGene(front, TranscriptionMachinery + back, name);
    LookupAppend(TranscriptionMachinery, back, name);
    LookupFirst(TranscriptionMachinery, name, i);
  }

  /** Only `g_CycD` declares the `tf` site the transcription generator binds
      transcription factors to; `g_cPAcP`, `g_sPAcP` and `g_PSA` declare `tf1`
      and `tf2` instead, so a transcription call for their proteins cannot
      build its patterns, whatever rates and factors it is given. */
  lemma GenesWithoutTf(kfKrKcat: Transcription.RateTable, tfs: Transcription.TfArg, onOff: Option<Transcription.RateTable>)
    ensures HasSite(Monomers, Transcription.GeneName("CycD"), "tf")
    ensures !Transcription.TranscriptionReady(Monomers, "cPAcP", kfKrKcat, tfs, onOff)
    ensures !Transcription.TranscriptionReady(Monomers, "sPAcP", kfKrKcat, tfs, onOff)
    ensures !Transcription.TranscriptionReady(Monomers, "PSA", kfKrKcat, tfs, onOff)
  {
    assert Transcription.GeneName("CycD") == "g_CycD";
    assert Transcription.GeneName("cPAcP") == "g_cPAcP";
    assert Transcription.GeneName("sPAcP") == "g_sPAcP";
    assert Transcription.GeneName("PSA") == "g_PSA";
    GeneLookup();
  }
}
