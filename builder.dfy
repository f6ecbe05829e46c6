/** The model under construction, which the generators and the initials loop
    add components to.  It stands for the model handle `set_model` installs:
    the generators read its monomers and every `Parameter(...)`, `Rule(...)`
    and `add_initial(...)` appends to it.  Each method is proved to append
    exactly what the specification functions of its module describe. */
module Builder {
  import opened Patterns
  import Transcription
  import Translation
  import opened Initials

  class ModelBuilder {
    var monomers: seq<Monomer>
    var parameters: seq<Parameter>
    var rules: seq<Rule>
    var initials: seq<Initial>

    /** A model whose monomers are declared and which holds nothing else yet;
        installing it is what makes it the one the generators extend. */
    constructor(ms: seq<Monomer>)
      ensures monomers == ms && parameters == [] && rules == [] && initials == []
    {
      monomers := ms;
      parameters := [];
      rules := [];
      initials := [];
    }

    /** The transcription scheme for protein `x`: RNAp binding and
        transcription at the bare gene, mRNA degradation, then for each
        transcription factor its binding and the gated RNAp binding and
        transcription.  Parameters and rules are appended in creation order. */
    method CreateTranscriptionRules(x: string, kfKrKcat: Transcription.RateTable, kDeg: real,
                                    tfs: Transcription.TfArg, onOff: Option<Transcription.RateTable>)
      requires Transcription.TranscriptionReady(monomers, x, kfKrKcat, tfs, onOff)
      modifies this
      ensures monomers == old(monomers) && initials == old(initials)
      ensures parameters == old(parameters) + Transcription.TranscriptionParameters(x, kfKrKcat, kDeg, tfs, onOff)
      ensures rules == old(rules) + Transcription.TranscriptionRules(x, kfKrKcat, kDeg, tfs, onOff)
    {
      var table := Transcription.Rows(kfKrKcat);
      var ts := Transcription.TfEntries(tfs);
      var on := Transcription.OnOffRows(tfs, onOff);
      var g := Transcription.GeneName(x);
      var m := Transcription.MrnaName(x);
      AddBasalRules(g, m, table[0], kDeg);
      AddFactorRules(g, m, ts, table, on);
    }

    /** The per-factor blocks, factor by factor: factor `i` is bound with
        on/off row `i` and gated with rate row `i + 1`. */
    method AddFactorRules(g: string, m: string, ts: seq<MonomerPattern>, table: seq<seq<real>>, on: seq<seq<real>>)
      requires Transcription.RatesCover(table, on, |ts|)
      modifies this
      ensures monomers == old(monomers) && initials == old(initials)
      ensures parameters == old(parameters) + Transcription.TfParamsUpTo(g, ts, table, on, |ts|)
      ensures rules == old(rules) + Transcription.TfRulesUpTo(g, m, ts, table, on, |ts|)
    {
      var i := 0;
      while i < |ts|
        invariant 0 <= i <= |ts|
        invariant monomers == old(monomers) && initials == old(initials)
        invariant parameters == old(parameters) + Transcription.TfParamsUpTo(g, ts, table, on, i)
        invariant rules == old(rules) + Transcription.TfRulesUpTo(g, m, ts, table, on, i)
      {
        var ps := Transcription.TfBlock(g, ts, table, on, i);
        AddTfRules(g, m, ts[i], ps);
        FactorStep(g, m, ts, table, on, i, ps, old(parameters), old(rules), parameters, rules);
        i := i + 1;
      }
    }

    /** RNAp binding and transcription at the bare gene `g`, and degradation
        of its transcript `m`, with their four parameters. */
    method AddBasalRules(g: string, m: string, row: seq<real>, kDeg: real)
      requires |row| >= 3
      modifies this
      ensures monomers == old(monomers) && initials == old(initials)
      ensures parameters == old(parameters) + Transcription.BasalParameters(g, m, row, kDeg)
      ensures rules == old(rules) + Transcription.BasalRules(g, m, Transcription.BasalParameters(g, m, row, kDeg))
    {
      var ps := Transcription.BasalParameters(g, m, row, kDeg);
      AddParameters(ps[..3]);
      AddRule(Transcription.BindsRnap(g, ps[0], ps[1]));
      AddRule(Transcription.RnapTranscribes(g, m, ps[2]));
      AddParameters([ps[3]]);
      AddRule(Transcription.MrnaDegrades(m, ps[3]));
      assert ps[..3] + [ps[3]] == ps;
    }

    /** One transcription factor `tf` at gene `g`: its binding, the gated RNAp
        binding and the gated transcription, with their five parameters. */
    method AddTfRules(g: string, m: string, tf: MonomerPattern, ps: seq<Parameter>)
      requires |ps| == 5
      modifies this
      ensures monomers == old(monomers) && initials == old(initials)
      ensures parameters == old(parameters) + ps
      ensures rules == old(rules) + Transcription.TfRules(g, m, tf, ps)
    {
      AddParameters(ps[..2]);
      AddRule(Transcription.BindsTf(g, tf, ps[0], ps[1]));
      AddParameters(ps[2..]);
      AddRule(Transcription.TfBindsRnap(g, tf, ps[2], ps[3]));
      AddRule(Transcription.TfRnapTranscribes(g, m, tf, ps[4]));
      assert ps[..2] + ps[2..] == ps;
    }

    method AddParameters(ps: seq<Parameter>)
      modifies this
      ensures monomers == old(monomers) && initials == old(initials) && rules == old(rules)
      ensures parameters == old(parameters) + ps
    {
      parameters := parameters + ps;
    }

    method AddRule(r: Rule)
      modifies this
      ensures monomers == old(monomers) && initials == old(initials) && parameters == old(parameters)
      ensures rules == old(rules) + [r]
    {
      rules := rules + [r];
    }

    method AddInitial(init: Initial)
      modifies this
      ensures monomers == old(monomers) && parameters == old(parameters) && rules == old(rules)
      ensures initials == old(initials) + [init]
    {
      initials := initials + [init];
    }

    /** The seven-rule translation pipeline for protein `prot`, with its ten
        parameters, appended in creation order. */
    method CreateTranslationRules(prot: Monomer, kfKr: seq<seq<real>>, kRelease: real, kElongate: real,
                                  kTerminate: real, kDeg: real)
      requires Translation.TranslationReady(monomers, prot, kfKr)
      modifies this
      ensures monomers == old(monomers) && initials == old(initials)
      ensures parameters == old(parameters) +
                            Translation.TranslationParameters(prot.name, kfKr, kRelease, kElongate, kTerminate, kDeg)
      ensures rules == old(rules) + Translation.TranslationRules(prot, kfKr, kRelease, kElongate, kTerminate, kDeg)
    {
      var m := Translation.MrnaName(prot.name);
      var protein := Translation.ProteinPattern(prot);
      var ps := Translation.TranslationParameters(prot.name, kfKr, kRelease, kElongate, kTerminate, kDeg);
      AddParameters(ps[..2]);
      AddRule(Translation.BindsEif(m, ps[0], ps[1]));
      AddParameters(ps[2..4]);
      AddRule(Translation.BindsS40(m, ps[2], ps[3]));
      AddParameters(ps[4..6]);
      AddRule(Translation.BindsS60(m, ps[4], ps[5]));
      AddParameters([ps[6]]);
      AddRule(Translation.ReleasesEif(m, ps[6]));
      AddParameters([ps[7]]);
      AddRule(Translation.Elongates(m, ps[7]));
      AddParameters([ps[8]]);
      AddRule(Translation.Translates(m, protein, ps[8]));
      AddParameters([ps[9]]);
      AddRule(Translation.Degrades(prot.name, protein, ps[9]));
      AppendTen(old(parameters), ps);
      AppendSeven(old(rules), Translation.TranslationRulesWith(m, prot.name, protein, ps));
    }

    /** One initial for every monomer and every combination of its state-site
        values, each with its own amount parameter, which the model also
        holds.  The amounts are looked up by parameter name, 0 when absent. */
    method AddInitials(amounts: map<string, real>)
      modifies this
      ensures monomers == old(monomers) && rules == old(rules)
      ensures initials == old(initials) + AllInitials(monomers, amounts)
      ensures parameters == old(parameters) + AmountParameters(AllInitials(monomers, amounts))
    {
      var ms := monomers;
      var i := 0;
      while i < |ms|
        invariant 0 <= i <= |ms|
        invariant monomers == ms && rules == old(rules)
        invariant initials == old(initials) + AllInitials(ms[..i], amounts)
        invariant parameters == old(parameters) + AmountParameters(AllInitials(ms[..i], amounts))
      {
        AddMonomerInitials(ms[i], amounts);
        InitialsStep(ms, amounts, i, old(initials), old(parameters), initials, parameters);
        i := i + 1;
      }
      assert ms[..i] == ms;
    }

    /** The initials of one monomer: its unbound sites, then for each
        combination of state values the state conditions and the name suffix
        built site by site. */
    method AddMonomerInitials(mon: Monomer, amounts: map<string, real>)
      modifies this
      ensures monomers == old(monomers) && rules == old(rules)
      ensures initials == old(initials) + MonomerInitials(mon, amounts)
      ensures parameters == old(parameters) + AmountParameters(MonomerInitials(mon, amounts))
    {
      var keys := StateKeys(mon);
      var sitesNone := UnboundConditions(mon.sites, keys);
      var combos := Product(StateLists(mon));
      ProductWidths(StateLists(mon));
      var j := 0;
      while j < |combos|
        invariant 0 <= j <= |combos|
        invariant monomers == old(monomers) && rules == old(rules)
        invariant initials == old(initials) + InitialsFor(mon, amounts, combos[..j])
        invariant parameters == old(parameters) + AmountParameters(InitialsFor(mon, amounts, combos[..j]))
      {
        var sitesStates, suffix := SpellStates(keys, combos[j]);
        var pname := mon.name + suffix + "_0";
        var amount := Parameter(pname, if pname in amounts then amounts[pname] else 0.0);
        var init := Initial([MonomerPattern(mon.name, sitesNone + sitesStates)], amount);
        assert init == InitialFor(mon, amounts, combos[j]);
        InitialsForSnoc(mon, amounts, combos, j);
        AmountParametersSnoc(InitialsFor(mon, amounts, combos[..j]), init);
        AddParameters([amount]);
        AddInitial(init);
        j := j + 1;
      }
      assert combos[..j] == combos;
    }
  }

  /** The state conditions and the name suffix of one combination of state
      values, accumulated site by site in key order. */
  method SpellStates(keys: seq<string>, states: seq<string>) returns (conds: seq<Condition>, suffix: string)
    requires |keys| == |states|
    ensures conds == StateConditions(keys, states)
    ensures suffix == Suffix(keys, states)
  {
    conds := [];
    suffix := "";
    var k := 0;
    while k < |keys|
      invariant 0 <= k <= |keys|
      invariant conds == StateConditions(keys[..k], states[..k])
      invariant suffix == Suffix(keys[..k], states[..k])
    {
      assert keys[..k + 1][..k] == keys[..k] && states[..k + 1][..k] == states[..k];
      conds := conds + [Condition(keys[k], State(states[k]))];
      suffix := suffix + ("_" + keys[k] + "_" + states[k]);
      k := k + 1;
    }
    assert keys[..k] == keys && states[..k] == states;
  }

  /** Appending one more monomer's initials after those of the monomers
      before it gives the initials of the longer prefix. */
  lemma InitialsStep(ms: seq<Monomer>, amounts: map<string, real>, i: nat,
                     inits0: seq<Initial>, params0: seq<Parameter>, inits: seq<Initial>, params: seq<Parameter>)
    requires i < |ms|
    requires inits == inits0 + AllInitials(ms[..i], amounts) + MonomerInitials(ms[i], amounts)
    requires params == params0 + AmountParameters(AllInitials(ms[..i], amounts)) +
                       AmountParameters(MonomerInitials(ms[i], amounts))
    ensures inits == inits0 + AllInitials(ms[..i + 1], amounts)
    ensures params == params0 + AmountParameters(AllInitials(ms[..i + 1], amounts))
  {
    var done, next := AllInitials(ms[..i], amounts), MonomerInitials(ms[i], amounts);
    AllInitialsSnoc(ms, amounts, i);
    AmountParametersAppend(done, next);
    AppendAssoc(inits0, done, next);
    AppendAssoc(params0, AmountParameters(done), AmountParameters(next));
  }

  /** One more monomer appends its initials. */
  lemma AllInitialsSnoc(ms: seq<Monomer>, amounts: map<string, real>, i: nat)
    requires i < |ms|
    ensures AllInitials(ms[..i + 1], amounts) == AllInitials(ms[..i], amounts) + MonomerInitials(ms[i], amounts)
  {
    assert ms[..i + 1][..i] == ms[..i];
  }

  lemma AmountParametersAppend(a: seq<Initial>, b: seq<Initial>)
    ensures AmountParameters(a + b) == AmountParameters(a) + AmountParameters(b)
  {
    forall k | 0 <= k < |a| ensures (a + b)[k] == a[k] {}
    forall k | 0 <= k < |b| ensures (a + b)[|a| + k] == b[k] {}
  }

  /** Appending factor `i`'s block to the first `i` blocks gives the first `i + 1`. */
  lemma FactorStep(g: string, m: string, ts: seq<MonomerPattern>, table: seq<seq<real>>, on: seq<seq<real>>, i: nat,
                   block: seq<Parameter>, params0: seq<Parameter>, rules0: seq<Rule>, params: seq<Parameter>, rules: seq<Rule>)
    requires Transcription.RatesCover(table, on, |ts|) && i < |ts|
    requires block == Transcription.TfBlock(g, ts, table, on, i)
    requires params == params0 + Transcription.TfParamsUpTo(g, ts, table, on, i) + block
    requires rules == rules0 + Transcription.TfRulesUpTo(g, m, ts, table, on, i) + Transcription.TfRules(g, m, ts[i], block)
    ensures params == params0 + Transcription.TfParamsUpTo(g, ts, table, on, i + 1)
    ensures rules == rules0 + Transcription.TfRulesUpTo(g, m, ts, table, on, i + 1)
  {
    AppendAssoc(params0, Transcription.TfParamsUpTo(g, ts, table, on, i), block);
    AppendAssoc(rules0, Transcription.TfRulesUpTo(g, m, ts, table, on, i), Transcription.TfRules(g, m, ts[i], block));
  }

  /** Extending the combinations by one extends their initials by one. */
  lemma InitialsForSnoc(m: Monomer, amounts: map<string, real>, ts: seq<seq<string>>, j: nat)
    requires Widths(m, ts) && j < |ts|
    ensures InitialsFor(m, amounts, ts[..j + 1]) == InitialsFor(m, amounts, ts[..j]) + [InitialFor(m, amounts, ts[j])]
  {
    assert ts[..j + 1][j] == ts[j];
    forall k | 0 <= k < j ensures ts[..j + 1][k] == ts[..j][k] {}
  }

  lemma AmountParametersSnoc(inits: seq<Initial>, i: Initial)
    ensures AmountParameters(inits + [i]) == AmountParameters(inits) + [i.amount]
  {
    forall k | 0 <= k < |inits| ensures (inits + [i])[k] == inits[k] {}
  }

  /** Ten parameters appended in the groups the translation generator creates them in. */
  lemma AppendTen(s: seq<Parameter>, ps: seq<Parameter>)
    requires |ps| == 10
    ensures s + ps[..2] + ps[2..4] + ps[4..6] + [ps[6]] + [ps[7]] + [ps[8]] + [ps[9]] == s + ps
  {
    assert ps == ps[..2] + ps[2..4] + ps[4..6] + [ps[6]] + [ps[7]] + [ps[8]] + [ps[9]];
  }

  /** Seven rules appended one at a time. */
  lemma AppendSeven(s: seq<Rule>, rs: seq<Rule>)
    requires |rs| == 7
    ensures s + [rs[0]] + [rs[1]] + [rs[2]] + [rs[3]] + [rs[4]] + [rs[5]] + [rs[6]] == s + rs
  {
    assert rs == [rs[0]] + [rs[1]] + [rs[2]] + [rs[3]] + [rs[4]] + [rs[5]] + [rs[6]];
  }

  lemma AppendAssoc<T>(a: seq<T>, b: seq<T>, c: seq<T>)
    ensures a + b + c == a + (b + c)
  {
  }

  /** Names can meet across the two generators: transcribing gene `y` and
      translating a protein named `mRNA_y` both name a rule `mRNA_y_degrades`,
      so the registry accepts only the first of the two calls. */
  lemma DegradationNamesMeet(y: string, kfKrKcat: Transcription.RateTable, kDeg: real,
                             tfs: Transcription.TfArg, onOff: Option<Transcription.RateTable>,
                             prot: Monomer, kfKr: seq<seq<real>>, kRelease: real, kElongate: real,
                             kTerminate: real, kProteinDeg: real)
    requires Transcription.RatesReady(kfKrKcat, tfs, onOff)
    requires Translation.RatesReady(kfKr) && Translation.StatesNonEmpty(prot) && prot.name == "mRNA_" + y
    ensures var rs := Transcription.TranscriptionRules(y, kfKrKcat, kDeg, tfs, onOff);
            var ss := Translation.TranslationRules(prot, kfKr, kRelease, kElongate, kTerminate, kProteinDeg);
            |rs| > 2 && |ss| == 7 && rs[2].name == ss[6].name
  {
    Transcription.BasalOutput(y, kfKrKcat, kDeg, tfs, onOff);
    Translation.RulesAffixed(prot, kfKr, kRelease, kElongate, kTerminate, kProteinDeg);
    assert "" + prot.name + "_degrades" == "mRNA_" + y + "_degrades";
  }
}
