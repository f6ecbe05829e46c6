# Rule-template generators and initial conditions of the androgen-receptor model

This project is a Dafny model of the two pieces of logic in a PySB
reimplementation of the androgen-receptor signalling model. Everything
else in that repository is declarative model content.

1. **The rule-template generators** (`util.py`).
   - `create_transcription_rules` takes a protein `X`. It emits the basal scheme at gene `g_X`: RNAp binding, transcription and degradation of the transcript `mRNA_X`. For each transcription factor (TF) it adds TF binding, TF-gated RNAp binding and TF-gated transcription.
   - `create_translation_rules` emits the fixed seven-step pipeline: eIF4E cap binding, 40S binding, 60S joining, eIF4E release, elongation, termination and protein degradation.
2. **The initial-condition loop** of `AR_model.py`. For every declared monomer and every combination of its state-site values, it adds one initial. Its amount parameter is named `<monomer>_<site>_<state>…_0` and its value is looked up in `init_params`, defaulting to 0.

## Layout

- `patterns.dfy` (`Patterns`): the data model.
  - Site values are `Unbound`, `Bond(id)` or `State(s)`.
  - A complex is a sequence of monomer patterns.
  - A rule has a name, reactant and product complexes, and a reversible or irreversible rate.
  - Also here: parameters, initials, monomer declarations, bond pairing, monomer multisets and registry lookup.
- `text.dfy` (`Text`): cancellation facts about concatenated names. They are used to show that generated names differ.
- `transcription.dfy` (`Transcription`): the parameters and rules of one transcription call as functions of its arguments, with the lemmas about them.
  - The numpy shape tests become the sum types `RateTable` and `TfArg`.
- `translation.dfy` (`Translation`): the same for one translation call, plus the synthesised protein pattern.
- `initials.dfy` (`Initials`): the cartesian product of state lists and the per-monomer initials, with the lemmas about them.
- `ar_model.dfy` (`ArModel`): the declared monomers (`AR_model.py:19-82`) and the `init_params` table (`AR_model.py:97-189`) as constants. Its lemmas evaluate the initials specification and the generators' demands on this data.
- `builder.dfy` (`Builder`): the class `ModelBuilder`. It stands for the model registry that `set_model` installs.
  - The generators and the initials loop are methods that append to its `parameters`, `rules` and `initials` sequences, in creation order.
  - Each method is proved to append exactly what the specification functions describe.

Rate values are `real`. No arithmetic is done on them; they are stored and passed on.

## Model

| member | source | states |
|---|---|---|
| Builder.ModelBuilder.constructor | util.py:6-11 | The installed model holds the declared monomers and no parameter, rule or initial yet. |
| Builder.ModelBuilder.CreateTranscriptionRules | util.py:14-67 | When the referenced monomers and sites are declared and the rate tables cover the TFs with a rectangular `kf_kr_kcat`, one call appends exactly `TranscriptionParameters` and `TranscriptionRules`, in creation order. It leaves monomers and initials unchanged. |
| Builder.ModelBuilder.AddBasalRules | util.py:37-48 | Appends `kf`/`kr`/`kcat` of `g_X_RNAp`, the binding rule, the transcription rule, `kdeg_mRNA_X` and the degradation rule, in that order. |
| Builder.ModelBuilder.AddFactorRules | util.py:50-67 | The loop over the TFs appends the first `i` per-factor blocks after `i` iterations, and so all of them at the end. |
| Builder.ModelBuilder.AddTfRules | util.py:53-67 | One TF appends its five parameters and its three rules. |
| Builder.ModelBuilder.CreateTranslationRules | util.py:70-124 | One call appends exactly `TranslationParameters` (10) and `TranslationRules` (7), in creation order. |
| Builder.ModelBuilder.AddInitials | AR_model.py:192-202 | The loop over the monomers appends, in monomer order, the initials of every monomer and their amount parameters. |
| Builder.ModelBuilder.AddMonomerInitials | AR_model.py:193-202 | The inner loop appends one initial and one amount parameter per state combination, in product order. |
| Builder.SpellStates | AR_model.py:195-199 | Building `sites_STATES` and `suffix` site by site gives the state conditions and the suffix `_site_state…` of the combination. |
| Builder.DegradationNamesMeet | util.py:124 | Translating a protein named `mRNA_Y` creates a degradation rule named like the mRNA degradation rule of util.py:48 when transcribing gene `Y`, namely `mRNA_Y_degrades`. |
| Transcription.TranscriptionCounts | util.py:37-67 | A call creates 3 + 3·n rules and 4 + 5·n parameters for n TFs. |
| Transcription.BasalOutput | util.py:26-48 | A 1-D rate vector is row 0. The basal parameters are `kf_g_X_RNAp`, `kr_g_X_RNAp` and `kcat_g_X_RNAp`, taken from row 0, then `kdeg_mRNA_X`. The rules are `g_X_binds_RNAp` (kf/kr), `g_X_RNAp_transcribes` (kcat) and `mRNA_X_degrades` (kdeg). |
| Transcription.TfParameterOutput | util.py:53-61 | TF `i` gets `kon_g_X_T`/`koff_g_X_T` from on/off row `i`, and `kf`/`kr`/`kcat` of `g_X_T_RNAp` from rate row `i+1`. |
| Transcription.TfRuleOutput | util.py:55-67 | The rules of TF `i` are `g_X_binds_T`, `g_X_T_binds_RNAp` and `g_X_T_RNAp_transcribes`, using that factor's five parameters in creation order. |
| Transcription.TranscriptionRatesWired | util.py:37-67 | The rates of the rules, read in order, are exactly the parameters the call creates: each is used once and none is foreign. |
| Transcription.TranscriptionKeepsTemplate | util.py:42-67 | Every irreversible rule either keeps its one reactant complex and adds one free `mRNA_X(eif4e=None,_40s=None,elong='i')`, or degrades a free `mRNA_X`. |
| Transcription.TranscriptionConserves | util.py:39-67 | Every reversible rule keeps the monomer multiset on both sides. Every rule changes nothing but the count of `mRNA_X`, so gene, RNAp and TFs are never consumed. |
| Transcription.RectangularMeans | util.py:26-27 | The shape test accepts a `kf_kr_kcat` table exactly when it is a single row or all of its rows are equally long. `Transcription.RatesReady` requires this. |
| Transcription.TranscriptionWellBonded | util.py:39-67 | For TF patterns that hold no bond, every complex on either side of every rule has each bond id on exactly two sites. |
| Transcription.BasalGating | util.py:39-44 | Basal RNAp binding needs a gene with `rnap` and `tf` free and a free RNAp, and makes `rnap` bound with `tf` free. Basal transcription runs on a gene with `rnap` bound to RNAp's `gene` site and `tf` free. |
| Transcription.TfGating | util.py:55-67 | TF binding needs a free gene and a free TF `gene` site. Gated RNAp binding needs `tf` bound to the TF and `rnap` free. Gated transcription needs both `tf` and `rnap` bound. |
| Transcription.TranscriptionParameterNamesDistinct | util.py:37-61 | A call's parameter names are pairwise distinct if and only if the TF monomer names are pairwise distinct. |
| Transcription.RepeatedTfParameterNames | util.py:53-54 | Two TFs with the same name give their `kon` parameters the same name. |
| Transcription.TranscriptionRuleNamesDistinct | util.py:39-65 | A call's rule names are pairwise distinct if and only if the TF names are distinct, none is `RNAp`, and no TF `t` has `binds_t` equal to `u_binds_RNAp` or `u_RNAp_transcribes` for a TF `u`. |
| Transcription.RepeatedTfRuleNames | util.py:55-57 | Two TFs with the same name give their binding rules the same name. |
| Transcription.RnapTfRuleNames | util.py:39-55 | A TF named `RNAp` gives its binding rule the name of the basal RNAp binding rule. |
| Transcription.TfRuleNamesCanCollide | util.py:55-62 | TFs `U_binds_RNAp` and `binds_U` give two rules the same name, even though their names are distinct and neither is `RNAp`. |
| Transcription.BindsMeetingRuleNames | util.py:55-65 | When `binds_t` is `u_binds_RNAp` (k = 1) or `u_RNAp_transcribes` (k = 2), TF `t`'s binding rule has the name of TF `u`'s rule k, so the call's rule names repeat. |
| Transcription.BasalCallsApart | util.py:37-48 | Two calls without TFs, for different genes, share no parameter name and no rule name. |
| Transcription.TfParameterNamesMeetAcrossGenes | util.py:53-61 | Gene `a` with TF `b_c` and gene `a_b` with TF `c` create the same five TF rate names, in the same order, though the genes differ. |
| Transcription.TfRuleNamesMeetAcrossGenes | util.py:62-67 | The same two calls both create rules named `g_a_b_c_binds_RNAp` and `g_a_b_c_RNAp_transcribes`. |
| Translation.ProteinPatternShape | util.py:89-91 | The protein pattern has one condition per declared site, in declaration order. A bond site is unbound and a state site takes its first declared state, so the pattern holds no bond. |
| Translation.TranslationRates | util.py:93-124 | The three binding steps take rows 0, 1 and 2 of `kf_kr` as forward and reverse rates. Release, elongation, termination and degradation take `k_release_X`, `k_elongate_X`, `k_terminate_X` and `k_deg_X`. The rates, read in order, are exactly the ten parameters. |
| Translation.TranslationChain | util.py:94-124 | Each binding step's product complex is, as a multiset, the next step's reactant. Release frees eIF4E and only unbinds the mRNA's `eif4e`. Elongation changes only `elong` from `i` to `a`. Termination yields a free mRNA (`None,None,'i'`), a free 40S, a free 60S and the protein pattern, which is the degradation's only reactant. |
| Translation.TranslationConserves | util.py:94-124 | Reversible steps keep their monomers. No step changes anything but the count of protein `X`: termination adds one and degradation removes one. |
| Translation.TranslationWellBonded | util.py:94-124 | Every complex on either side of every step has each bond id on exactly two sites. |
| Translation.TranslationParameterNamesDistinct | util.py:93-123 | The ten parameter names of a call are pairwise distinct, whatever the protein is called. |
| Translation.TranslationRuleNamesDistinct | util.py:94-124 | The seven rule names of a call are pairwise distinct, whatever the protein is called. |
| Translation.TranslationParameterNamesApart | util.py:93-123 | Calls for two differently named proteins share no parameter name. |
| Translation.TranslationRuleNamesApart | util.py:94-124 | Calls for two differently named proteins share no rule name. |
| Initials.ProductLength | AR_model.py:194 | The cartesian product has as many tuples as the product of the list lengths. |
| Initials.ProductMember | AR_model.py:194 | A tuple is in the product if and only if each of its entries is from the corresponding list. |
| Initials.ProductDistinct | AR_model.py:194 | When each list holds distinct values, the product lists each tuple once. |
| Initials.MonomerInitialsCount | AR_model.py:194-202 | A monomer gets as many initials as the product of the numbers of declared values of its state sites. |
| Initials.MonomerInitialsCover | AR_model.py:194-202 | Every initial is the one for some state combination, and every state combination has its initial. |
| Initials.StatelessMonomerInitial | AR_model.py:193-202 | A monomer without state sites gets exactly one initial, named `X_0`, with every site unbound. |
| Initials.InitialPatternShape | AR_model.py:193-200 | In an initial's pattern, each site that is not a state site is unbound and each state site holds the combination's value. |
| Initials.NameInjective | AR_model.py:196-201 | When state values contain no `_`, the parameter name determines the state combination. |
| Initials.MonomerNamesDistinct | AR_model.py:194-202 | Within one monomer, distinct combinations give distinct parameter names, given distinct values per site and no `_` in any value. |
| ArModel.EgfInitials | AR_model.py:192-202 | `EGF` (line 19) gets `EGF(r=None, loc='extra')` with `EGF_loc_extra_0` = 100 (line 99), and `EGF(r=None, loc='intra')` with `EGF_loc_intra_0` = 0. |
| ArModel.EgfrAmounts | AR_model.py:97-189 | Only `EGFR_state_u_loc_extra_0` is tabulated (115.41); the other three EGFR names look up to 0. |
| ArModel.EgfrInitials | AR_model.py:192-202 | `EGFR` (line 20) gets four initials with location varying fastest, named `EGFR_state_u_loc_extra_0` (115.41, line 114), `…_u_loc_intra_0`, `…_p_loc_extra_0` and `…_p_loc_intra_0` (all 0). |
| ArModel.DeclarationsPlain | AR_model.py:19-82 | Every declared monomer has distinct state sites, distinct values per site and no `_` in any state value. |
| ArModel.InitialNamesDistinct | AR_model.py:192-202 | Within every declared monomer, distinct state combinations give distinct amount-parameter names. |
| ArModel.GeneLookup | AR_model.py:65-69 | The registry finds each gene at its declaration. |
| ArModel.GenesWithoutTf | AR_model.py:66-69 | Only `g_CycD` declares the `tf` site the generator binds TFs to, so no transcription call for cPAcP, sPAcP or PSA can build its patterns, whatever its rates and TFs. |

## Failure and rate tables

- **Failure is not atomic.** Every `Parameter(...)` and `Rule(...)` registers itself as it is created (util.py:37-67, 93-124). A call that fails part-way therefore leaves its earlier output in the model. The model treats the lookup and rate-shape failures as preconditions (`TranscriptionReady`, `TranslationReady`); a call that meets them runs to its end.
- **Duplicate names are not rejected.** The registry refuses a second component with a name it already holds, which stops the call part-way. `TranscriptionReady` still admits inputs whose names repeat, and on them the model appends the duplicate-named parameters or rules where the registry would raise. Within one transcription call, `Transcription.TranscriptionParameterNamesDistinct` and `Transcription.TranscriptionRuleNamesDistinct` characterise these inputs exactly:
  - a repeated TF name;
  - a TF named `RNAp`;
  - a TF `t` whose binding rule `g_X_binds_t` is another TF `u`'s rule `g_X_u_binds_RNAp` or `g_X_u_RNAp_transcribes`. This happens when `binds_t` equals `u_binds_RNAp` or `u_RNAp_transcribes`: the pairs `U_binds_RNAp`/`binds_U`, `U_RNAp_transcribes`/`binds_U` and `binds_RNAp`/`binds` are instances.

  `Transcription.RepeatedTfParameterNames`, `Transcription.RepeatedTfRuleNames`, `Transcription.RnapTfRuleNames` and `Transcription.BindsMeetingRuleNames` exhibit the repeated name in each case.
- **Names can repeat across calls.** Names are built from the gene, mRNA, protein and TF names, but different calls can still create the same name:
  - Two translation calls for different proteins never do (`Translation.TranslationParameterNamesApart`, `Translation.TranslationRuleNamesApart`).
  - Two transcription calls without TFs, for different genes, never do either (`Transcription.BasalCallsApart`).
  - With TFs they can. Gene `A` with TF `B_C` and gene `A_B` with TF `C` both create `kon_g_A_B_C` and its four sibling rates, and the rules `g_A_B_C_binds_RNAp` and `g_A_B_C_RNAp_transcribes` (`Transcription.TfParameterNamesMeetAcrossGenes`, `Transcription.TfRuleNamesMeetAcrossGenes`).
  - Transcribing gene `Y` and translating a protein named `mRNA_Y` both create the rule `mRNA_Y_degrades` (`Builder.DegradationNamesMeet`).

  In these cases the registry would reject the second call part-way. The model appends its output unchanged.
- **Extra rate rows are ignored.** `kf_kr` rows after the third are never read (util.py:93-104), so `Translation.RatesReady` asks for at least three rows of at least two entries. Likewise `kf_kr_kcat` rows after row n and `k_tf_on_off` rows after row n-1, for n TFs, are never read (util.py:38, 53, 60), so `Transcription.RatesCover` asks for more than n rate rows and at least n on/off rows. The unread `kf_kr_kcat` rows must still be as long as the others: the shape test at util.py:26 turns the whole table into an array, which fails on a ragged table, so `Transcription.RatesReady` also asks for `Transcription.Rectangular`. On/off rows are never turned into an array, so they may differ in length.

## Left out

- PySB itself is not modelled: network generation, pattern matching, `Model()`, `as_complex_pattern` and the registry's own duplicate-name checks. The model keeps only the data handed to it.
- `alias_model_components` (util.py:15, 71) is not modelled. It injects registry components as global names; the model refers to monomers by name.
- Failure of a call is a precondition, not an outcome: a missing monomer, site or state, a short or ragged rate table, or an unset registry. Partial output before a failure, including a duplicate-name rejection by the registry, is therefore not modelled (see above).
- `tfs=None` is excluded by `Transcription.RatesReady`. The code wraps it into `[None]` (util.py:29-31) and then fails on `tf.monomer` (util.py:53).
- TF entries are monomer patterns. The `(pattern, name)` tuples passed at AR_model.py:767, 803, 844 and 900 cannot be represented, because the generator reads each entry as a pattern.
- The registry's rejection of a name repeated across calls is not modelled: a model holding the output of several calls may hold the same name twice (see "Names can repeat across calls" above).
- Translation.ProteinPatternShape: does not merge repeated sites. The code builds `site_conditions` as a dict, which keeps one entry per site; the model emits one condition per declared site, so the two agree whenever site names are distinct, as in every declaration of AR_model.py.
- Rate values are opaque `real`s. No floating-point behaviour is modelled.
- The hand-written parameters and rules of AR_model.py (207-728), the TF species tables and the simulation block are declarative content or I/O and are not modelled.
