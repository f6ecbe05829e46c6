/** The transcription rule template of `create_transcription_rules`: for a
    protein `X`, the basal RNA-polymerase pathway on gene `g_X`, the
    degradation of free `mRNA_X`, and for each transcription factor a
    TF-binding step and a TF-gated polymerase pathway.  The functions here say
    exactly which parameters and rules one call emits, in order; the builder's
    method appends them, and the lemmas state what the emitted set guarantees. */
module Transcription {
  import opened Patterns
  import Text

  function GeneName(x: string): string { "g_" + x }
  function MrnaName(x: string): string { "mRNA_" + x }

  /** `gene(rnap=.., tf=..)` */
  function Gene(g: string, rnap: SiteValue, tf: SiteValue): MonomerPattern {
    MonomerPattern(g, [Condition("rnap", rnap), Condition("tf", tf)])
  }

  /** `RNAp(gene=..)` */
  function Rnap(v: SiteValue): MonomerPattern {
    MonomerPattern("RNAp", [Condition("gene", v)])
  }

  /** `mrna(eif4e=None, _40s=None, elong='i')`: a free, initiation-ready mRNA. */
  function FreeMrna(m: string): MonomerPattern {
    MonomerPattern(m, [Condition("eif4e", Unbound), Condition("_40s", Unbound), Condition("elong", State("i"))])
  }

  /** `tf(gene=..)`: the transcription factor's pattern with its `gene` site set. */
  function Tf(tf: MonomerPattern, v: SiteValue): MonomerPattern {
    WithSite(tf, "gene", v)
  }

  /** A rate argument is either one row (a 1-D vector) or a table of rows. */
  datatype RateTable = Row(row: seq<real>) | Table(rows: seq<seq<real>>)

  /** A 1-D rate vector is wrapped into a one-row table. */
  function Rows(t: RateTable): seq<seq<real>> {
    if t.Row? then [t.row] else t.rows
  }

  /** The `tfs` argument: the default `None`, a single pattern, or a list. */
  datatype TfArg = NoTfs | OneTf(tf: MonomerPattern) | TfList(tfs: seq<MonomerPattern>)

  /** A single transcription factor is wrapped into a one-entry list. */
  function TfEntries(a: TfArg): seq<MonomerPattern>
    requires !a.NoTfs?
  {
    if a.OneTf? then [a.tf] else a.tfs
  }

  /** The `k_tf_on_off` rows as the loop reads them: wrapped together with a
      single transcription factor, taken as given with a list.  A shape the
      loop cannot index gives no rows. */
  function OnOffRows(a: TfArg, onOff: Option<RateTable>): seq<seq<real>> {
    match a
    case NoTfs => []
    case OneTf(_) => if onOff.Some? && onOff.value.Row? then [onOff.value.row] else []
    case TfList(_) => if onOff.Some? && onOff.value.Table? then onOff.value.rows else []
  }

  function TfNames(ts: seq<MonomerPattern>): seq<string> {
    seq(|ts|, i requires 0 <= i < |ts| => ts[i].monomer)
  }

  /** Table row 0 and TF rows 1..n hold (kf, kr, kcat); on/off rows 0..n-1 hold (kon, koff). */
  predicate RatesCover(table: seq<seq<real>>, onOff: seq<seq<real>>, n: nat) {
    |table| > n && |onOff| >= n &&
    (forall i | 0 <= i <= n :: |table[i]| >= 3) &&
    (forall i | 0 <= i < n :: |onOff[i]| >= 2)
  }

  /** The shape test turns the whole rate table into an array first, which
      fails unless all its rows have one length. */
  predicate Rectangular(t: RateTable) {
    t.Table? ==> |t.rows| == 0 || AllOfLength(t.rows, |t.rows[0]|)
  }

  /** Every row has `c` entries. */
  predicate AllOfLength(rows: seq<seq<real>>, c: nat) {
    |rows| == 0 || (|rows[0]| == c && AllOfLength(rows[1..], c))
  }

  lemma {:induction false} AllOfLengthMeans(rows: seq<seq<real>>, c: nat)
    ensures AllOfLength(rows, c) <==> forall i | 0 <= i < |rows| :: |rows[i]| == c
  {
    if |rows| > 0 {
      AllOfLengthMeans(rows[1..], c);
      assert forall i | 1 <= i < |rows| :: rows[i] == rows[1..][i - 1];
    }
  }

  /** A table is rectangular exactly when any two of its rows are equally long. */
  lemma RectangularMeans(t: RateTable)
    ensures Rectangular(t) <==>
              (t.Table? ==> forall i, j | 0 <= i < j < |t.rows| :: |t.rows[i]| == |t.rows[j]|)
  {
    if t.Table? && |t.rows| > 0 {
      AllOfLengthMeans(t.rows, |t.rows[0]|);
      if forall i, j | 0 <= i < j < |t.rows| :: |t.rows[i]| == |t.rows[j]| {
        assert forall i | 0 < i < |t.rows| :: |t.rows[0]| == |t.rows[i]|;
      }
    }
  }

  /** The rate arguments can be indexed as the generator indexes them; `tfs=None` cannot. */
  predicate RatesReady(kfKrKcat: RateTable, tfs: TfArg, onOff: Option<RateTable>) {
    !tfs.NoTfs? && Rectangular(kfKrKcat) && RatesCover(Rows(kfKrKcat), OnOffRows(tfs, onOff), |TfEntries(tfs)|)
  }

  /** The monomer types and sites every emitted pattern names are declared. */
  predicate MonomersReady(ms: seq<Monomer>, x: string, tfs: TfArg)
    requires !tfs.NoTfs?
  {
    HasSite(ms, GeneName(x), "rnap") && HasSite(ms, GeneName(x), "tf") &&
    HasSite(ms, MrnaName(x), "eif4e") && HasSite(ms, MrnaName(x), "_40s") &&
    HasState(ms, MrnaName(x), "elong", "i") &&
    HasSite(ms, "RNAp", "gene") &&
    forall i | 0 <= i < |TfEntries(tfs)| :: HasSite(ms, TfEntries(tfs)[i].monomer, "gene")
  }

  /** What a call demands to run to its end. */
  predicate TranscriptionReady(ms: seq<Monomer>, x: string, kfKrKcat: RateTable, tfs: TfArg, onOff: Option<RateTable>) {
    RatesReady(kfKrKcat, tfs, onOff) && MonomersReady(ms, x, tfs)
  }

  // ---- names ----

  /** A parameter name: role prefix, `_`, then the body naming gene, TF or mRNA. */
  function RateName(role: string, body: string): string { role + "_" + body }

  const Roles: set<string> := {"kf", "kr", "kcat", "kon", "koff", "kdeg"}

  function TfRole(k: nat): string
    requires k < 5
  {
    ["kon", "koff", "kf", "kr", "kcat"][k]
  }

  function TfBody(g: string, t: string, k: nat): string {
    if k < 2 then g + "_" + t else g + "_" + t + "_RNAp"
  }

  function TfRuleName(g: string, t: string, k: nat): string {
    if k == 0 then g + "_binds_" + t
    else if k == 1 then g + "_" + t + "_binds_RNAp"
    else g + "_" + t + "_RNAp_transcribes"
  }

  /** Factor `t`'s binding rule `g_binds_<t>` would carry the name of factor
      `u`'s RNAp-binding rule `g_<u>_binds_RNAp` or of its transcription rule
      `g_<u>_RNAp_transcribes`. */
  predicate BindsMeets(t: string, u: string) {
    "binds_" + t == u + "_binds_RNAp" || "binds_" + t == u + "_RNAp_transcribes"
  }

  /** No factor's binding rule meets another factor's later rules. */
  predicate NoBindsMeeting(ts: seq<MonomerPattern>) {
    forall i, j | 0 <= i < |ts| && 0 <= j < |ts| :: !BindsMeets(ts[i].monomer, ts[j].monomer)
  }

  // ---- parameters ----

  function BasalParameters(g: string, m: string, row: seq<real>, kDeg: real): seq<Parameter>
    requires |row| >= 3
  {
    [Parameter(RateName("kf", g + "_RNAp"), row[0]),
     Parameter(RateName("kr", g + "_RNAp"), row[1]),
     Parameter(RateName("kcat", g + "_RNAp"), row[2]),
     Parameter(RateName("kdeg", m), kDeg)]
  }

  function TfParameters(g: string, t: string, onOff: seq<real>, row: seq<real>): seq<Parameter>
    requires |onOff| >= 2 && |row| >= 3
  {
    [Parameter(RateName("kon", g + "_" + t), onOff[0]),
     Parameter(RateName("koff", g + "_" + t), onOff[1]),
     Parameter(RateName("kf", g + "_" + t + "_RNAp"), row[0]),
     Parameter(RateName("kr", g + "_" + t + "_RNAp"), row[1]),
     Parameter(RateName("kcat", g + "_" + t + "_RNAp"), row[2])]
  }

  /** The parameters of transcription factor `i`: on/off row `i`, rate row `i+1`. */
  function TfBlock(g: string, ts: seq<MonomerPattern>, table: seq<seq<real>>, onOff: seq<seq<real>>, i: nat): seq<Parameter>
    requires RatesCover(table, onOff, |ts|) && i < |ts|
  {
    TfParameters(g, ts[i].monomer, onOff[i], table[i + 1])
  }

  function TfParamsUpTo(g: string, ts: seq<MonomerPattern>, table: seq<seq<real>>, onOff: seq<seq<real>>, n: nat): seq<Parameter>
    requires RatesCover(table, onOff, |ts|) && n <= |ts|
    decreases n
  {
    if n == 0 then [] else TfParamsUpTo(g, ts, table, onOff, n - 1) + TfBlock(g, ts, table, onOff, n - 1)
  }

  // ---- rules ----

  function BindsRnap(g: string, kf: Parameter, kr: Parameter): Rule {
    Rule(g + "_binds_RNAp",
         [[Gene(g, Unbound, Unbound)], [Rnap(Unbound)]],
         [[Gene(g, Bond(1), Unbound), Rnap(Bond(1))]],
         Reversible(kf, kr))
  }

  function RnapTranscribes(g: string, m: string, kcat: Parameter): Rule {
    Rule(g + "_RNAp_transcribes",
         [[Gene(g, Bond(1), Unbound), Rnap(Bond(1))]],
         [[Gene(g, Bond(1), Unbound), Rnap(Bond(1))], [FreeMrna(m)]],
         Irreversible(kcat))
  }

  function MrnaDegrades(m: string, kDeg: Parameter): Rule {
    Rule(m + "_degrades", [[FreeMrna(m)]], [], Irreversible(kDeg))
  }

  function BindsTf(g: string, tf: MonomerPattern, kon: Parameter, koff: Parameter): Rule {
    Rule(TfRuleName(g, tf.monomer, 0),
         [[Gene(g, Unbound, Unbound)], [Tf(tf, Unbound)]],
         [[Gene(g, Unbound, Bond(1)), Tf(tf, Bond(1))]],
         Reversible(kon, koff))
  }

  function TfBindsRnap(g: string, tf: MonomerPattern, kf: Parameter, kr: Parameter): Rule {
    Rule(TfRuleName(g, tf.monomer, 1),
         [[Gene(g, Unbound, Bond(1)), Tf(tf, Bond(1))], [Rnap(Unbound)]],
         [[Gene(g, Bond(2), Bond(1)), Tf(tf, Bond(1)), Rnap(Bond(2))]],
         Reversible(kf, kr))
  }

  function TfRnapTranscribes(g: string, m: string, tf: MonomerPattern, kcat: Parameter): Rule {
    Rule(TfRuleName(g, tf.monomer, 2),
         [[Gene(g, Bond(2), Bond(1)), Tf(tf, Bond(1)), Rnap(Bond(2))]],
         [[Gene(g, Bond(2), Bond(1)), Tf(tf, Bond(1)), Rnap(Bond(2))], [FreeMrna(m)]],
         Irreversible(kcat))
  }

  function BasalRules(g: string, m: string, ps: seq<Parameter>): seq<Rule>
    requires |ps| == 4
  {
    [BindsRnap(g, ps[0], ps[1]), RnapTranscribes(g, m, ps[2]), MrnaDegrades(m, ps[3])]
  }

  function TfRules(g: string, m: string, tf: MonomerPattern, ps: seq<Parameter>): seq<Rule>
    requires |ps| == 5
  {
    [BindsTf(g, tf, ps[0], ps[1]), TfBindsRnap(g, tf, ps[2], ps[3]), TfRnapTranscribes(g, m, tf, ps[4])]
  }

  function TfRulesUpTo(g: string, m: string, ts: seq<MonomerPattern>, table: seq<seq<real>>, onOff: seq<seq<real>>, n: nat): seq<Rule>
    requires RatesCover(table, onOff, |ts|) && n <= |ts|
    decreases n
  {
    if n == 0 then []
    else TfRulesUpTo(g, m, ts, table, onOff, n - 1) + TfRules(g, m, ts[n - 1], TfBlock(g, ts, table, onOff, n - 1))
  }

  // ---- what one call emits ----

  /** The parameters one call creates, in creation order. */
  function TranscriptionParameters(x: string, kfKrKcat: RateTable, kDeg: real, tfs: TfArg, onOff: Option<RateTable>): seq<Parameter>
    requires RatesReady(kfKrKcat, tfs, onOff)
  {
    BasalParameters(GeneName(x), MrnaName(x), Rows(kfKrKcat)[0], kDeg) +
    TfParamsUpTo(GeneName(x), TfEntries(tfs), Rows(kfKrKcat), OnOffRows(tfs, onOff), |TfEntries(tfs)|)
  }

  /** The rules one call creates, in creation order. */
  function TranscriptionRules(x: string, kfKrKcat: RateTable, kDeg: real, tfs: TfArg, onOff: Option<RateTable>): seq<Rule>
    requires RatesReady(kfKrKcat, tfs, onOff)
  {
    BasalRules(GeneName(x), MrnaName(x), BasalParameters(GeneName(x), MrnaName(x), Rows(kfKrKcat)[0], kDeg)) +
    TfRulesUpTo(GeneName(x), MrnaName(x), TfEntries(tfs), Rows(kfKrKcat), OnOffRows(tfs, onOff), |TfEntries(tfs)|)
  }

  // ---- the per-TF blocks ----

  lemma TfUpToSizes(g: string, m: string, ts: seq<MonomerPattern>, table: seq<seq<real>>, onOff: seq<seq<real>>, n: nat)
    requires RatesCover(table, onOff, |ts|) && n <= |ts|
    ensures |TfParamsUpTo(g, ts, table, onOff, n)| == 5 * n
    ensures |TfRulesUpTo(g, m, ts, table, onOff, n)| == 3 * n
  {
    TfParamsSize(g, ts, table, onOff, n);
    TfRulesSize(g, m, ts, table, onOff, n);
  }

  lemma {:induction false} TfParamsSize(g: string, ts: seq<MonomerPattern>, table: seq<seq<real>>, onOff: seq<seq<real>>, n: nat)
    requires RatesCover(table, onOff, |ts|) && n <= |ts|
    ensures |TfParamsUpTo(g, ts, table, onOff, n)| == 5 * n
  {
    if n > 0 {
      TfParamsSize(g, ts, table, onOff, n - 1);
    }
  }

  lemma {:induction false} TfRulesSize(g: string, m: string, ts: seq<MonomerPattern>, table: seq<seq<real>>, onOff: seq<seq<real>>, n: nat)
    requires RatesCover(table, onOff, |ts|) && n <= |ts|
    ensures |TfRulesUpTo(g, m, ts, table, onOff, n)| == 3 * n
  {
    if n > 0 {
      TfRulesSize(g, m, ts, table, onOff, n - 1);
    }
  }

  lemma TfBlockSize(g: string, ts: seq<MonomerPattern>, table: seq<seq<real>>, onOff: seq<seq<real>>, i: nat)
    requires RatesCover(table, onOff, |ts|) && i < |ts|
    ensures |TfBlock(g, ts, table, onOff, i)| == 5
  {
  }

  /** The last block of the first `n` sits at the end. */
  lemma TfParamsLast(g: string, ts: seq<MonomerPattern>, table: seq<seq<real>>, onOff: seq<seq<real>>, n: nat)
    requires RatesCover(table, onOff, |ts|) && 0 < n <= |ts|
    ensures |TfParamsUpTo(g, ts, table, onOff, n)| == 5 * n
    ensures TfParamsUpTo(g, ts, table, onOff, n)[5 * (n - 1)..5 * n] == TfBlock(g, ts, table, onOff, n - 1)
  {
    TfParamsSize(g, ts, table, onOff, n - 1);
    var ps := TfParamsUpTo(g, ts, table, onOff, n - 1);
    var last := TfBlock(g, ts, table, onOff, n - 1);
    TfBlockSize(g, ts, table, onOff, n - 1);
    SliceOfRight(ps, last, 0, 5);
    assert last[0..5] == last;
  }

  lemma {:induction false} TfParamsAt(g: string, ts: seq<MonomerPattern>, table: seq<seq<real>>, onOff: seq<seq<real>>, n: nat, i: nat)
    requires RatesCover(table, onOff, |ts|) && i < n <= |ts|
    ensures |TfParamsUpTo(g, ts, table, onOff, n)| == 5 * n
    ensures TfParamsUpTo(g, ts, table, onOff, n)[5 * i..5 * i + 5] == TfBlock(g, ts, table, onOff, i)
  {
    if i < n - 1 {
      TfParamsAt(g, ts, table, onOff, n - 1, i);
      SliceOfLeft(TfParamsUpTo(g, ts, table, onOff, n - 1), TfBlock(g, ts, table, onOff, n - 1), 5 * i, 5 * i + 5);
      TfParamsSize(g, ts, table, onOff, n);
    } else {
      TfParamsLast(g, ts, table, onOff, n);
    }
  }

  /** The last block of rules of the first `n` sits at the end. */
  lemma TfRulesLast(g: string, m: string, ts: seq<MonomerPattern>, table: seq<seq<real>>, onOff: seq<seq<real>>, n: nat)
    requires RatesCover(table, onOff, |ts|) && 0 < n <= |ts|
    ensures |TfRulesUpTo(g, m, ts, table, onOff, n)| == 3 * n
    ensures TfRulesUpTo(g, m, ts, table, onOff, n)[3 * (n - 1)..3 * n] == TfRules(g, m, ts[n - 1], TfBlock(g, ts, table, onOff, n - 1))
  {
    TfRulesSize(g, m, ts, table, onOff, n - 1);
    var rs := TfRulesUpTo(g, m, ts, table, onOff, n - 1);
    TfBlockSize(g, ts, table, onOff, n - 1);
    var last := TfRules(g, m, ts[n - 1], TfBlock(g, ts, table, onOff, n - 1));
    SliceOfRight(rs, last, 0, 3);
    assert last[0..3] == last;
  }

  lemma {:induction false} TfRulesAt(g: string, m: string, ts: seq<MonomerPattern>, table: seq<seq<real>>, onOff: seq<seq<real>>, n: nat, i: nat)
    requires RatesCover(table, onOff, |ts|) && i < n <= |ts|
    ensures |TfRulesUpTo(g, m, ts, table, onOff, n)| == 3 * n
    ensures TfRulesUpTo(g, m, ts, table, onOff, n)[3 * i..3 * i + 3] == TfRules(g, m, ts[i], TfBlock(g, ts, table, onOff, i))
  {
    if i < n - 1 {
      TfRulesAt(g, m, ts, table, onOff, n - 1, i);
      TfBlockSize(g, ts, table, onOff, n - 1);
      SliceOfLeft(TfRulesUpTo(g, m, ts, table, onOff, n - 1), TfRules(g, m, ts[n - 1], TfBlock(g, ts, table, onOff, n - 1)), 3 * i, 3 * i + 3);
      TfRulesSize(g, m, ts, table, onOff, n);
    } else {
      TfRulesLast(g, m, ts, table, onOff, n);
    }
  }

  /** Parameter `k` of transcription factor `i` and rule `k` of it, by position in the call's output. */
  lemma TfPositions(x: string, kfKrKcat: RateTable, kDeg: real, tfs: TfArg, onOff: Option<RateTable>, i: nat)
    requires RatesReady(kfKrKcat, tfs, onOff) && i < |TfEntries(tfs)|
    ensures |TranscriptionParameters(x, kfKrKcat, kDeg, tfs, onOff)| == 4 + 5 * |TfEntries(tfs)|
    ensures |TranscriptionRules(x, kfKrKcat, kDeg, tfs, onOff)| == 3 + 3 * |TfEntries(tfs)|
    ensures TranscriptionParameters(x, kfKrKcat, kDeg, tfs, onOff)[4 + 5 * i..9 + 5 * i] ==
            TfBlock(GeneName(x), TfEntries(tfs), Rows(kfKrKcat), OnOffRows(tfs, onOff), i)
    ensures TranscriptionRules(x, kfKrKcat, kDeg, tfs, onOff)[3 + 3 * i..6 + 3 * i] ==
            TfRules(GeneName(x), MrnaName(x), TfEntries(tfs)[i],
                    TfBlock(GeneName(x), TfEntries(tfs), Rows(kfKrKcat), OnOffRows(tfs, onOff), i))
  {
    TfParamPositions(x, kfKrKcat, kDeg, tfs, onOff, i);
    TfRulePositions(x, kfKrKcat, kDeg, tfs, onOff, i);
  }

  lemma TfParamPositions(x: string, kfKrKcat: RateTable, kDeg: real, tfs: TfArg, onOff: Option<RateTable>, i: nat)
    requires RatesReady(kfKrKcat, tfs, onOff) && i < |TfEntries(tfs)|
    ensures |TranscriptionParameters(x, kfKrKcat, kDeg, tfs, onOff)| == 4 + 5 * |TfEntries(tfs)|
    ensures TranscriptionParameters(x, kfKrKcat, kDeg, tfs, onOff)[4 + 5 * i..9 + 5 * i] ==
            TfBlock(GeneName(x), TfEntries(tfs), Rows(kfKrKcat), OnOffRows(tfs, onOff), i)
  {
    var g, m, ts, table, rows := GeneName(x), MrnaName(x), TfEntries(tfs), Rows(kfKrKcat), OnOffRows(tfs, onOff);
    TfParamsAt(g, ts, table, rows, |ts|, i);
    var bp := BasalParameters(g, m, table[0], kDeg);
    var tp := TfParamsUpTo(g, ts, table, rows, |ts|);
    assert TranscriptionParameters(x, kfKrKcat, kDeg, tfs, onOff) == bp + tp;
    SliceOfRight(bp, tp, 5 * i, 5 * i + 5);
  }

  lemma TfRulePositions(x: string, kfKrKcat: RateTable, kDeg: real, tfs: TfArg, onOff: Option<RateTable>, i: nat)
    requires RatesReady(kfKrKcat, tfs, onOff) && i < |TfEntries(tfs)|
    ensures |TranscriptionRules(x, kfKrKcat, kDeg, tfs, onOff)| == 3 + 3 * |TfEntries(tfs)|
    ensures TranscriptionRules(x, kfKrKcat, kDeg, tfs, onOff)[3 + 3 * i..6 + 3 * i] ==
            TfRules(GeneName(x), MrnaName(x), TfEntries(tfs)[i],
                    TfBlock(GeneName(x), TfEntries(tfs), Rows(kfKrKcat), OnOffRows(tfs, onOff), i))
  {
    var g, m, ts, table, rows := GeneName(x), MrnaName(x), TfEntries(tfs), Rows(kfKrKcat), OnOffRows(tfs, onOff);
    TfRulesAt(g, m, ts, table, rows, |ts|, i);
    var br := BasalRules(g, m, BasalParameters(g, m, table[0], kDeg));
    var tr := TfRulesUpTo(g, m, ts, table, rows, |ts|);
    assert TranscriptionRules(x, kfKrKcat, kDeg, tfs, onOff) == br + tr;
    SliceOfRight(br, tr, 3 * i, 3 * i + 3);
  }

  // ---- counts ----

  /** One call adds 3 + 3·|tfs| rules and 4 + 5·|tfs| parameters. */
  lemma TranscriptionCounts(x: string, kfKrKcat: RateTable, kDeg: real, tfs: TfArg, onOff: Option<RateTable>)
    requires RatesReady(kfKrKcat, tfs, onOff)
    ensures |TranscriptionRules(x, kfKrKcat, kDeg, tfs, onOff)| == 3 + 3 * |TfEntries(tfs)|
    ensures |TranscriptionParameters(x, kfKrKcat, kDeg, tfs, onOff)| == 4 + 5 * |TfEntries(tfs)|
  {
    TfUpToSizes(GeneName(x), MrnaName(x), TfEntries(tfs), Rows(kfKrKcat), OnOffRows(tfs, onOff), |TfEntries(tfs)|);
  }

  // ---- well-formed rule shapes ----

  lemma GeneBondIds(g: string, rnap: SiteValue, tf: SiteValue)
    ensures ConditionBondIds(Gene(g, rnap, tf).conditions) == ValueBondIds(rnap) + ValueBondIds(tf)
  {
    Conditions2BondIds(Condition("rnap", rnap), Condition("tf", tf));
  }

  lemma RnapBondIds(v: SiteValue)
    ensures ConditionBondIds(Rnap(v).conditions) == ValueBondIds(v)
  {
    var cs := Rnap(v).conditions;
    assert cs[1..] == [];
    assert ConditionBondIds(cs) == ValueBondIds(v) + ConditionBondIds([]);
  }

  lemma FreeMrnaBondIds(m: string)
    ensures ConditionBondIds(FreeMrna(m).conditions) == multiset{}
  {
    Conditions3BondIds(Condition("eif4e", Unbound), Condition("_40s", Unbound), Condition("elong", State("i")));
  }

  lemma FreeGenePaired(g: string)
    ensures PairedBonds([Gene(g, Unbound, Unbound)])
  {
    GeneBondIds(g, Unbound, Unbound);
    Complex1(Gene(g, Unbound, Unbound));
    PairedNone([Gene(g, Unbound, Unbound)]);
  }

  lemma FreeRnapPaired()
    ensures PairedBonds([Rnap(Unbound)])
  {
    RnapBondIds(Unbound);
    Complex1(Rnap(Unbound));
    PairedNone([Rnap(Unbound)]);
  }

  lemma FreeMrnaPaired(m: string)
    ensures PairedBonds([FreeMrna(m)])
  {
    FreeMrnaBondIds(m);
    Complex1(FreeMrna(m));
    PairedNone([FreeMrna(m)]);
  }

  lemma FreeTfPaired(tf: MonomerPattern)
    requires BondFree(tf.conditions)
    ensures PairedBonds([Tf(tf, Unbound)])
  {
    SetSiteBondIds(tf.conditions, "gene", Unbound);
    Complex1(Tf(tf, Unbound));
    PairedNone([Tf(tf, Unbound)]);
  }

  lemma GeneRnapPaired(g: string)
    ensures PairedBonds([Gene(g, Bond(1), Unbound), Rnap(Bond(1))])
  {
    GeneBondIds(g, Bond(1), Unbound);
    RnapBondIds(Bond(1));
    Complex2(Gene(g, Bond(1), Unbound), Rnap(Bond(1)));
    PairedOne([Gene(g, Bond(1), Unbound), Rnap(Bond(1))], 1);
  }

  lemma GeneTfPaired(g: string, tf: MonomerPattern)
    requires BondFree(tf.conditions)
    ensures PairedBonds([Gene(g, Unbound, Bond(1)), Tf(tf, Bond(1))])
  {
    GeneBondIds(g, Unbound, Bond(1));
    SetSiteBondIds(tf.conditions, "gene", Bond(1));
    Complex2(Gene(g, Unbound, Bond(1)), Tf(tf, Bond(1)));
    PairedOne([Gene(g, Unbound, Bond(1)), Tf(tf, Bond(1))], 1);
  }

  lemma GeneTfRnapPaired(g: string, tf: MonomerPattern)
    requires BondFree(tf.conditions)
    ensures PairedBonds([Gene(g, Bond(2), Bond(1)), Tf(tf, Bond(1)), Rnap(Bond(2))])
  {
    GeneBondIds(g, Bond(2), Bond(1));
    SetSiteBondIds(tf.conditions, "gene", Bond(1));
    RnapBondIds(Bond(2));
    PairedTriangle(Gene(g, Bond(2), Bond(1)), Tf(tf, Bond(1)), Rnap(Bond(2)), 2, 1);
  }

  lemma BindsRnapWellBonded(g: string, kf: Parameter, kr: Parameter)
    ensures WellBonded(BindsRnap(g, kf, kr))
  {
    FreeGenePaired(g);
    FreeRnapPaired();
    GeneRnapPaired(g);
  }

  lemma RnapTranscribesWellBonded(g: string, m: string, kcat: Parameter)
    ensures WellBonded(RnapTranscribes(g, m, kcat))
  {
    GeneRnapPaired(g);
    FreeMrnaPaired(m);
  }

  lemma MrnaDegradesWellBonded(m: string, kDeg: Parameter)
    ensures WellBonded(MrnaDegrades(m, kDeg))
  {
    FreeMrnaPaired(m);
  }

  lemma BindsTfWellBonded(g: string, tf: MonomerPattern, kon: Parameter, koff: Parameter)
    requires BondFree(tf.conditions)
    ensures WellBonded(BindsTf(g, tf, kon, koff))
  {
    FreeGenePaired(g);
    FreeTfPaired(tf);
    GeneTfPaired(g, tf);
  }

  lemma TfBindsRnapWellBonded(g: string, tf: MonomerPattern, kf: Parameter, kr: Parameter)
    requires BondFree(tf.conditions)
    ensures WellBonded(TfBindsRnap(g, tf, kf, kr))
  {
    GeneTfPaired(g, tf);
    FreeRnapPaired();
    GeneTfRnapPaired(g, tf);
  }

  lemma TfRnapTranscribesWellBonded(g: string, m: string, tf: MonomerPattern, kcat: Parameter)
    requires BondFree(tf.conditions)
    ensures WellBonded(TfRnapTranscribes(g, m, tf, kcat))
  {
    GeneTfRnapPaired(g, tf);
    FreeMrnaPaired(m);
  }

  lemma BasalWellBonded(g: string, m: string, ps: seq<Parameter>)
    requires |ps| == 4
    ensures forall k | 0 <= k < 3 :: WellBonded(BasalRules(g, m, ps)[k])
  {
    BindsRnapWellBonded(g, ps[0], ps[1]);
    RnapTranscribesWellBonded(g, m, ps[2]);
    MrnaDegradesWellBonded(m, ps[3]);
  }

  lemma TfWellBonded(g: string, m: string, tf: MonomerPattern, ps: seq<Parameter>)
    requires |ps| == 5 && BondFree(tf.conditions)
    ensures forall k | 0 <= k < 3 :: WellBonded(TfRules(g, m, tf, ps)[k])
  {
    BindsTfWellBonded(g, tf, ps[0], ps[1]);
    TfBindsRnapWellBonded(g, tf, ps[2], ps[3]);
    TfRnapTranscribesWellBonded(g, m, tf, ps[4]);
  }

  lemma WellBondedAt(x: string, kfKrKcat: RateTable, kDeg: real, tfs: TfArg, onOff: Option<RateTable>, k: nat)
    requires RatesReady(kfKrKcat, tfs, onOff)
    requires forall i | 0 <= i < |TfEntries(tfs)| :: BondFree(TfEntries(tfs)[i].conditions)
    requires k < |TranscriptionRules(x, kfKrKcat, kDeg, tfs, onOff)|
    ensures WellBonded(TranscriptionRules(x, kfKrKcat, kDeg, tfs, onOff)[k])
  {
    TranscriptionCounts(x, kfKrKcat, kDeg, tfs, onOff);
    if k < 3 {
      BasalWellBondedAt(x, kfKrKcat, kDeg, tfs, onOff, k);
    } else {
      TfWellBondedAt(x, kfKrKcat, kDeg, tfs, onOff, k);
    }
  }

  lemma BasalWellBondedAt(x: string, kfKrKcat: RateTable, kDeg: real, tfs: TfArg, onOff: Option<RateTable>, k: nat)
    requires RatesReady(kfKrKcat, tfs, onOff)
    requires k < 3
    ensures k < |TranscriptionRules(x, kfKrKcat, kDeg, tfs, onOff)|
    ensures WellBonded(TranscriptionRules(x, kfKrKcat, kDeg, tfs, onOff)[k])
  {
    var rs := TranscriptionRules(x, kfKrKcat, kDeg, tfs, onOff);
    var g, m := GeneName(x), MrnaName(x);
    TranscriptionCounts(x, kfKrKcat, kDeg, tfs, onOff);
    var ps := BasalParameters(g, m, Rows(kfKrKcat)[0], kDeg);
    BasalWellBonded(g, m, ps);
    assert rs[k] == BasalRules(g, m, ps)[k];
  }

  lemma TfWellBondedAt(x: string, kfKrKcat: RateTable, kDeg: real, tfs: TfArg, onOff: Option<RateTable>, k: nat)
    requires RatesReady(kfKrKcat, tfs, onOff)
    requires forall i | 0 <= i < |TfEntries(tfs)| :: BondFree(TfEntries(tfs)[i].conditions)
    requires 3 <= k < |TranscriptionRules(x, kfKrKcat, kDeg, tfs, onOff)|
    ensures WellBonded(TranscriptionRules(x, kfKrKcat, kDeg, tfs, onOff)[k])
  {
    var rs := TranscriptionRules(x, kfKrKcat, kDeg, tfs, onOff);
    var g, m, ts := GeneName(x), MrnaName(x), TfEntries(tfs);
    TranscriptionCounts(x, kfKrKcat, kDeg, tfs, onOff);
    var i := (k - 3) / 3;
    TfPositions(x, kfKrKcat, kDeg, tfs, onOff, i);
    var block := TfBlock(g, ts, Rows(kfKrKcat), OnOffRows(tfs, onOff), i);
    TfWellBonded(g, m, ts[i], block);
    assert rs[k] == rs[3 + 3 * i..6 + 3 * i][k - 3 - 3 * i];
  }

  /** Every complex a call emits pairs its bonds, given transcription factors
      whose own patterns hold no bond. */
  lemma TranscriptionWellBonded(x: string, kfKrKcat: RateTable, kDeg: real, tfs: TfArg, onOff: Option<RateTable>)
    requires RatesReady(kfKrKcat, tfs, onOff)
    requires forall i | 0 <= i < |TfEntries(tfs)| :: BondFree(TfEntries(tfs)[i].conditions)
    ensures forall k | 0 <= k < |TranscriptionRules(x, kfKrKcat, kDeg, tfs, onOff)| ::
              WellBonded(TranscriptionRules(x, kfKrKcat, kDeg, tfs, onOff)[k])
  {
    forall k | 0 <= k < |TranscriptionRules(x, kfKrKcat, kDeg, tfs, onOff)|
      ensures WellBonded(TranscriptionRules(x, kfKrKcat, kDeg, tfs, onOff)[k])
    {
      WellBondedAt(x, kfKrKcat, kDeg, tfs, onOff, k);
    }
  }

  // ---- which monomers each rule consumes and creates ----

  lemma BindsRnapMonomers(g: string, kf: Parameter, kr: Parameter)
    ensures SumMonomers(BindsRnap(g, kf, kr).reactants) == multiset{g, "RNAp"}
    ensures SumMonomers(BindsRnap(g, kf, kr).products) == multiset{g, "RNAp"}
  {
    Complex1(Gene(g, Unbound, Unbound));
    Complex1(Rnap(Unbound));
    Complex2(Gene(g, Bond(1), Unbound), Rnap(Bond(1)));
    Sum2([Gene(g, Unbound, Unbound)], [Rnap(Unbound)]);
    Sum1([Gene(g, Bond(1), Unbound), Rnap(Bond(1))]);
    MultisetPair(g, "RNAp");
  }

  lemma RnapTranscribesMonomers(g: string, m: string, kcat: Parameter)
    ensures SumMonomers(RnapTranscribes(g, m, kcat).reactants) == multiset{g, "RNAp"}
    ensures SumMonomers(RnapTranscribes(g, m, kcat).products) == multiset{g, "RNAp", m}
  {
    Complex2(Gene(g, Bond(1), Unbound), Rnap(Bond(1)));
    Complex1(FreeMrna(m));
    Sum1([Gene(g, Bond(1), Unbound), Rnap(Bond(1))]);
    Sum2([Gene(g, Bond(1), Unbound), Rnap(Bond(1))], [FreeMrna(m)]);
    MultisetSnoc2(g, "RNAp", m);
  }

  lemma MrnaDegradesMonomers(m: string, kDeg: Parameter)
    ensures SumMonomers(MrnaDegrades(m, kDeg).reactants) == multiset{m}
    ensures SumMonomers(MrnaDegrades(m, kDeg).products) == multiset{}
  {
    Complex1(FreeMrna(m));
    Sum1([FreeMrna(m)]);
  }

  lemma BindsTfMonomers(g: string, tf: MonomerPattern, kon: Parameter, koff: Parameter)
    ensures SumMonomers(BindsTf(g, tf, kon, koff).reactants) == multiset{g, tf.monomer}
    ensures SumMonomers(BindsTf(g, tf, kon, koff).products) == multiset{g, tf.monomer}
  {
    Complex1(Gene(g, Unbound, Unbound));
    Complex1(Tf(tf, Unbound));
    Complex2(Gene(g, Unbound, Bond(1)), Tf(tf, Bond(1)));
    Sum2([Gene(g, Unbound, Unbound)], [Tf(tf, Unbound)]);
    Sum1([Gene(g, Unbound, Bond(1)), Tf(tf, Bond(1))]);
    MultisetPair(g, tf.monomer);
  }

  lemma TfBindsRnapMonomers(g: string, tf: MonomerPattern, kf: Parameter, kr: Parameter)
    ensures SumMonomers(TfBindsRnap(g, tf, kf, kr).reactants) == multiset{g, tf.monomer, "RNAp"}
    ensures SumMonomers(TfBindsRnap(g, tf, kf, kr).products) == multiset{g, tf.monomer, "RNAp"}
  {
    Complex2(Gene(g, Unbound, Bond(1)), Tf(tf, Bond(1)));
    Complex1(Rnap(Unbound));
    Complex3(Gene(g, Bond(2), Bond(1)), Tf(tf, Bond(1)), Rnap(Bond(2)));
    Sum2([Gene(g, Unbound, Bond(1)), Tf(tf, Bond(1))], [Rnap(Unbound)]);
    Sum1([Gene(g, Bond(2), Bond(1)), Tf(tf, Bond(1)), Rnap(Bond(2))]);
    MultisetSnoc2(g, tf.monomer, "RNAp");
  }

  lemma TfRnapTranscribesMonomers(g: string, m: string, tf: MonomerPattern, kcat: Parameter)
    ensures SumMonomers(TfRnapTranscribes(g, m, tf, kcat).reactants) == multiset{g, tf.monomer, "RNAp"}
    ensures SumMonomers(TfRnapTranscribes(g, m, tf, kcat).products) == multiset{g, tf.monomer, "RNAp", m}
  {
    Complex3(Gene(g, Bond(2), Bond(1)), Tf(tf, Bond(1)), Rnap(Bond(2)));
    Complex1(FreeMrna(m));
    Sum1([Gene(g, Bond(2), Bond(1)), Tf(tf, Bond(1)), Rnap(Bond(2))]);
    Sum2([Gene(g, Bond(2), Bond(1)), Tf(tf, Bond(1)), Rnap(Bond(2))], [FreeMrna(m)]);
    MultisetSnoc3(g, tf.monomer, "RNAp", m);
  }

  lemma BindsRnapConserves(g: string, m: string, kf: Parameter, kr: Parameter)
    ensures RateShapeOk(BindsRnap(g, kf, kr)) && ChangesOnly(BindsRnap(g, kf, kr), m)
  {
    BindsRnapMonomers(g, kf, kr);
    KeepsMonomers(BindsRnap(g, kf, kr), m, multiset{g, "RNAp"});
  }

  lemma RnapTranscribesConserves(g: string, m: string, kcat: Parameter)
    ensures RateShapeOk(RnapTranscribes(g, m, kcat)) && ChangesOnly(RnapTranscribes(g, m, kcat), m)
  {
    RnapTranscribesMonomers(g, m, kcat);
    AddsMonomer(RnapTranscribes(g, m, kcat), m, multiset{g, "RNAp"});
  }

  lemma MrnaDegradesConserves(m: string, kDeg: Parameter)
    ensures RateShapeOk(MrnaDegrades(m, kDeg)) && ChangesOnly(MrnaDegrades(m, kDeg), m)
  {
    MrnaDegradesMonomers(m, kDeg);
    RemovesMonomer(MrnaDegrades(m, kDeg), m);
  }

  lemma BindsTfConserves(g: string, m: string, tf: MonomerPattern, kon: Parameter, koff: Parameter)
    ensures RateShapeOk(BindsTf(g, tf, kon, koff)) && ChangesOnly(BindsTf(g, tf, kon, koff), m)
  {
    BindsTfMonomers(g, tf, kon, koff);
    KeepsMonomers(BindsTf(g, tf, kon, koff), m, multiset{g, tf.monomer});
  }

  lemma TfBindsRnapConserves(g: string, m: string, tf: MonomerPattern, kf: Parameter, kr: Parameter)
    ensures RateShapeOk(TfBindsRnap(g, tf, kf, kr)) && ChangesOnly(TfBindsRnap(g, tf, kf, kr), m)
  {
    TfBindsRnapMonomers(g, tf, kf, kr);
    KeepsMonomers(TfBindsRnap(g, tf, kf, kr), m, multiset{g, tf.monomer, "RNAp"});
  }

  lemma TfRnapTranscribesConserves(g: string, m: string, tf: MonomerPattern, kcat: Parameter)
    ensures RateShapeOk(TfRnapTranscribes(g, m, tf, kcat)) && ChangesOnly(TfRnapTranscribes(g, m, tf, kcat), m)
  {
    TfRnapTranscribesMonomers(g, m, tf, kcat);
    AddsMonomer(TfRnapTranscribes(g, m, tf, kcat), m, multiset{g, tf.monomer, "RNAp"});
  }

  lemma BasalConserves(g: string, m: string, ps: seq<Parameter>)
    requires |ps| == 4
    ensures forall k | 0 <= k < 3 :: RateShapeOk(BasalRules(g, m, ps)[k]) && ChangesOnly(BasalRules(g, m, ps)[k], m)
  {
    BindsRnapConserves(g, m, ps[0], ps[1]);
    RnapTranscribesConserves(g, m, ps[2]);
    MrnaDegradesConserves(m, ps[3]);
  }

  lemma TfConserves(g: string, m: string, tf: MonomerPattern, ps: seq<Parameter>)
    requires |ps| == 5
    ensures forall k | 0 <= k < 3 :: RateShapeOk(TfRules(g, m, tf, ps)[k]) && ChangesOnly(TfRules(g, m, tf, ps)[k], m)
  {
    BindsTfConserves(g, m, tf, ps[0], ps[1]);
    TfBindsRnapConserves(g, m, tf, ps[2], ps[3]);
    TfRnapTranscribesConserves(g, m, tf, ps[4]);
  }

  lemma ConservesAt(x: string, kfKrKcat: RateTable, kDeg: real, tfs: TfArg, onOff: Option<RateTable>, k: nat)
    requires RatesReady(kfKrKcat, tfs, onOff) && k < |TranscriptionRules(x, kfKrKcat, kDeg, tfs, onOff)|
    ensures RateShapeOk(TranscriptionRules(x, kfKrKcat, kDeg, tfs, onOff)[k])
    ensures ChangesOnly(TranscriptionRules(x, kfKrKcat, kDeg, tfs, onOff)[k], MrnaName(x))
  {
    var rs := TranscriptionRules(x, kfKrKcat, kDeg, tfs, onOff);
    var g, m, ts := GeneName(x), MrnaName(x), TfEntries(tfs);
    TranscriptionCounts(x, kfKrKcat, kDeg, tfs, onOff);
    if k < 3 {
      var ps := BasalParameters(g, m, Rows(kfKrKcat)[0], kDeg);
      BasalConserves(g, m, ps);
      assert rs[k] == BasalRules(g, m, ps)[k];
    } else {
      var i := (k - 3) / 3;
      TfPositions(x, kfKrKcat, kDeg, tfs, onOff, i);
      var block := TfBlock(g, ts, Rows(kfKrKcat), OnOffRows(tfs, onOff), i);
      TfConserves(g, m, ts[i], block);
      assert rs[k] == rs[3 + 3 * i..6 + 3 * i][k - 3 - 3 * i];
    }
  }

  /** Every reversible rule of a call keeps its monomers, and no rule creates
      or consumes anything but the transcript `mRNA_X`: gene, RNA polymerase
      and transcription factors are never used up. */
  lemma TranscriptionConserves(x: string, kfKrKcat: RateTable, kDeg: real, tfs: TfArg, onOff: Option<RateTable>)
    requires RatesReady(kfKrKcat, tfs, onOff)
    ensures forall k | 0 <= k < |TranscriptionRules(x, kfKrKcat, kDeg, tfs, onOff)| ::
              RateShapeOk(TranscriptionRules(x, kfKrKcat, kDeg, tfs, onOff)[k]) &&
              ChangesOnly(TranscriptionRules(x, kfKrKcat, kDeg, tfs, onOff)[k], MrnaName(x))
  {
    forall k | 0 <= k < |TranscriptionRules(x, kfKrKcat, kDeg, tfs, onOff)|
      ensures RateShapeOk(TranscriptionRules(x, kfKrKcat, kDeg, tfs, onOff)[k]) &&
              ChangesOnly(TranscriptionRules(x, kfKrKcat, kDeg, tfs, onOff)[k], MrnaName(x))
    {
      ConservesAt(x, kfKrKcat, kDeg, tfs, onOff, k);
    }
  }

  // ---- names, values and rate wiring, by position ----

  /** The basal block: `kf`/`kr`/`kcat` of `g_X_RNAp` take row 0 of the rate
      table (a 1-D vector is that row), `kdeg_mRNA_X` takes `k_deg`; RNAp
      binding uses kf/kr, transcription kcat, mRNA degradation kdeg. */
  lemma BasalOutput(x: string, kfKrKcat: RateTable, kDeg: real, tfs: TfArg, onOff: Option<RateTable>)
    requires RatesReady(kfKrKcat, tfs, onOff)
    ensures var ps := TranscriptionParameters(x, kfKrKcat, kDeg, tfs, onOff);
            var rs := TranscriptionRules(x, kfKrKcat, kDeg, tfs, onOff);
            var row := if kfKrKcat.Row? then kfKrKcat.row else kfKrKcat.rows[0];
            |ps| >= 4 && |rs| >= 3 &&
            ps[0] == Parameter("kf_g_" + x + "_RNAp", row[0]) &&
            ps[1] == Parameter("kr_g_" + x + "_RNAp", row[1]) &&
            ps[2] == Parameter("kcat_g_" + x + "_RNAp", row[2]) &&
            ps[3] == Parameter("kdeg_mRNA_" + x, kDeg) &&
            rs[0].name == "g_" + x + "_binds_RNAp" && rs[0].rate == Reversible(ps[0], ps[1]) &&
            rs[1].name == "g_" + x + "_RNAp_transcribes" && rs[1].rate == Irreversible(ps[2]) &&
            rs[2].name == "mRNA_" + x + "_degrades" && rs[2].rate == Irreversible(ps[3])
  {
    BasalParameterOutput(x, kfKrKcat, kDeg, tfs, onOff);
    BasalRuleOutput(x, kfKrKcat, kDeg, tfs, onOff);
  }

  lemma BasalParameterOutput(x: string, kfKrKcat: RateTable, kDeg: real, tfs: TfArg, onOff: Option<RateTable>)
    requires RatesReady(kfKrKcat, tfs, onOff)
    ensures var ps := TranscriptionParameters(x, kfKrKcat, kDeg, tfs, onOff);
            |ps| >= 4 && ps[..4] == BasalParameters(GeneName(x), MrnaName(x), Rows(kfKrKcat)[0], kDeg)
  {
    TranscriptionCounts(x, kfKrKcat, kDeg, tfs, onOff);
  }

  lemma BasalRuleOutput(x: string, kfKrKcat: RateTable, kDeg: real, tfs: TfArg, onOff: Option<RateTable>)
    requires RatesReady(kfKrKcat, tfs, onOff)
    ensures var rs := TranscriptionRules(x, kfKrKcat, kDeg, tfs, onOff);
            var bp := BasalParameters(GeneName(x), MrnaName(x), Rows(kfKrKcat)[0], kDeg);
            |rs| >= 3 && rs[..3] == BasalRules(GeneName(x), MrnaName(x), bp)
  {
    TranscriptionCounts(x, kfKrKcat, kDeg, tfs, onOff);
  }

  /** `TfParameters` spelled out: the names `kon_g_T`, `koff_g_T`, `kf_g_T_RNAp`, ... */
  lemma TfParametersSpelled(g: string, t: string, on: seq<real>, row: seq<real>)
    requires |on| >= 2 && |row| >= 3
    ensures var b := TfParameters(g, t, on, row);
            b[0] == Parameter("kon_" + g + "_" + t, on[0]) &&
            b[1] == Parameter("koff_" + g + "_" + t, on[1]) &&
            b[2] == Parameter("kf_" + g + "_" + t + "_RNAp", row[0]) &&
            b[3] == Parameter("kr_" + g + "_" + t + "_RNAp", row[1]) &&
            b[4] == Parameter("kcat_" + g + "_" + t + "_RNAp", row[2])
  {
  }

  /** Transcription factor `i`: `kon`/`koff` of `g_X_T` take on/off row `i`,
      `kf`/`kr`/`kcat` of `g_X_T_RNAp` take rate row `i+1`. */
  lemma TfParameterOutput(x: string, kfKrKcat: RateTable, kDeg: real, tfs: TfArg, onOff: Option<RateTable>, i: nat)
    requires RatesReady(kfKrKcat, tfs, onOff) && i < |TfEntries(tfs)|
    ensures var ps := TranscriptionParameters(x, kfKrKcat, kDeg, tfs, onOff);
            var g, t := "g_" + x, TfEntries(tfs)[i].monomer;
            var on, row := OnOffRows(tfs, onOff)[i], Rows(kfKrKcat)[i + 1];
            |ps| == 4 + 5 * |TfEntries(tfs)| &&
            ps[4 + 5 * i] == Parameter("kon_" + g + "_" + t, on[0]) &&
            ps[5 + 5 * i] == Parameter("koff_" + g + "_" + t, on[1]) &&
            ps[6 + 5 * i] == Parameter("kf_" + g + "_" + t + "_RNAp", row[0]) &&
            ps[7 + 5 * i] == Parameter("kr_" + g + "_" + t + "_RNAp", row[1]) &&
            ps[8 + 5 * i] == Parameter("kcat_" + g + "_" + t + "_RNAp", row[2])
  {
    TfPositions(x, kfKrKcat, kDeg, tfs, onOff, i);
    var ps := TranscriptionParameters(x, kfKrKcat, kDeg, tfs, onOff);
    var block := ps[4 + 5 * i..9 + 5 * i];
    TfParametersSpelled(GeneName(x), TfEntries(tfs)[i].monomer, OnOffRows(tfs, onOff)[i], Rows(kfKrKcat)[i + 1]);
    assert ps[4 + 5 * i] == block[0] && ps[5 + 5 * i] == block[1] && ps[6 + 5 * i] == block[2];
    assert ps[7 + 5 * i] == block[3] && ps[8 + 5 * i] == block[4];
  }

  /** The three rules of transcription factor `i` are named after gene and TF
      and use that factor's five parameters in creation order. */
  lemma TfRuleOutput(x: string, kfKrKcat: RateTable, kDeg: real, tfs: TfArg, onOff: Option<RateTable>, i: nat)
    requires RatesReady(kfKrKcat, tfs, onOff) && i < |TfEntries(tfs)|
    ensures var ps := TranscriptionParameters(x, kfKrKcat, kDeg, tfs, onOff);
            var rs := TranscriptionRules(x, kfKrKcat, kDeg, tfs, onOff);
            var g, t := "g_" + x, TfEntries(tfs)[i].monomer;
            |ps| == 4 + 5 * |TfEntries(tfs)| && |rs| == 3 + 3 * |TfEntries(tfs)| &&
            rs[3 + 3 * i].name == g + "_binds_" + t &&
            rs[3 + 3 * i].rate == Reversible(ps[4 + 5 * i], ps[5 + 5 * i]) &&
            rs[4 + 3 * i].name == g + "_" + t + "_binds_RNAp" &&
            rs[4 + 3 * i].rate == Reversible(ps[6 + 5 * i], ps[7 + 5 * i]) &&
            rs[5 + 3 * i].name == g + "_" + t + "_RNAp_transcribes" &&
            rs[5 + 3 * i].rate == Irreversible(ps[8 + 5 * i])
  {
    TfPositions(x, kfKrKcat, kDeg, tfs, onOff, i);
    var ps := TranscriptionParameters(x, kfKrKcat, kDeg, tfs, onOff);
    var rs := TranscriptionRules(x, kfKrKcat, kDeg, tfs, onOff);
    var block := ps[4 + 5 * i..9 + 5 * i];
    var rules := rs[3 + 3 * i..6 + 3 * i];
    assert ps[4 + 5 * i] == block[0] && ps[5 + 5 * i] == block[1] && ps[6 + 5 * i] == block[2];
    assert ps[7 + 5 * i] == block[3] && ps[8 + 5 * i] == block[4];
    assert rs[3 + 3 * i] == rules[0] && rs[4 + 3 * i] == rules[1] && rs[5 + 3 * i] == rules[2];
  }

  lemma BasalRates(g: string, m: string, ps: seq<Parameter>)
    requires |ps| == 4
    ensures AllRateParameters(BasalRules(g, m, ps)) == ps
  {
    var rs := BasalRules(g, m, ps);
    RateParameters3(rs[0], rs[1], rs[2]);
    assert ps == [ps[0], ps[1]] + [ps[2]] + [ps[3]];
  }

  lemma TfRates(g: string, m: string, tf: MonomerPattern, ps: seq<Parameter>)
    requires |ps| == 5
    ensures AllRateParameters(TfRules(g, m, tf, ps)) == ps
  {
    var rs := TfRules(g, m, tf, ps);
    RateParameters3(rs[0], rs[1], rs[2]);
    assert ps == [ps[0], ps[1]] + [ps[2], ps[3]] + [ps[4]];
  }

  lemma {:induction false} TfUpToRates(g: string, m: string, ts: seq<MonomerPattern>, table: seq<seq<real>>, onOff: seq<seq<real>>, n: nat)
    requires RatesCover(table, onOff, |ts|) && n <= |ts|
    ensures AllRateParameters(TfRulesUpTo(g, m, ts, table, onOff, n)) == TfParamsUpTo(g, ts, table, onOff, n)
  {
    if n > 0 {
      var block := TfBlock(g, ts, table, onOff, n - 1);
      TfUpToRates(g, m, ts, table, onOff, n - 1);
      AllRateParametersAppend(TfRulesUpTo(g, m, ts, table, onOff, n - 1), TfRules(g, m, ts[n - 1], block));
      TfRates(g, m, ts[n - 1], block);
    }
  }

  /** The rules of a call use exactly the parameters the call creates as their
      rates, each once and in creation order: every parameter is used and no
      rule refers to a parameter of another call. */
  lemma TranscriptionRatesWired(x: string, kfKrKcat: RateTable, kDeg: real, tfs: TfArg, onOff: Option<RateTable>)
    requires RatesReady(kfKrKcat, tfs, onOff)
    ensures AllRateParameters(TranscriptionRules(x, kfKrKcat, kDeg, tfs, onOff)) ==
            TranscriptionParameters(x, kfKrKcat, kDeg, tfs, onOff)
  {
    var g, m, ts, table, rows := GeneName(x), MrnaName(x), TfEntries(tfs), Rows(kfKrKcat), OnOffRows(tfs, onOff);
    var bp := BasalParameters(g, m, table[0], kDeg);
    AllRateParametersAppend(BasalRules(g, m, bp), TfRulesUpTo(g, m, ts, table, rows, |ts|));
    BasalRates(g, m, bp);
    TfUpToRates(g, m, ts, table, rows, |ts|);
  }

  // ---- what the rules require and keep ----

  /** The site values `rnap` and `tf` of a gene pattern. */
  function GeneSites(p: MonomerPattern): (Option<SiteValue>, Option<SiteValue>) {
    (ValueAt(p.conditions, "rnap"), ValueAt(p.conditions, "tf"))
  }

  lemma GeneSitesOf(g: string, rnap: SiteValue, tf: SiteValue)
    ensures GeneSites(Gene(g, rnap, tf)) == (Some(rnap), Some(tf))
  {
    var cs := Gene(g, rnap, tf).conditions;
    assert cs[1..] == [Condition("tf", tf)];
    assert ValueAt(cs[1..], "tf") == Some(tf);
  }

  lemma RnapSiteOf(v: SiteValue)
    ensures ValueAt(Rnap(v).conditions, "gene") == Some(v)
  {
  }

  lemma BasalRulesAt(x: string, kfKrKcat: RateTable, kDeg: real, tfs: TfArg, onOff: Option<RateTable>)
    requires RatesReady(kfKrKcat, tfs, onOff)
    ensures var rs := TranscriptionRules(x, kfKrKcat, kDeg, tfs, onOff);
            var bp := BasalParameters(GeneName(x), MrnaName(x), Rows(kfKrKcat)[0], kDeg);
            |rs| >= 3 && rs[0] == BindsRnap(GeneName(x), bp[0], bp[1]) &&
            rs[1] == RnapTranscribes(GeneName(x), MrnaName(x), bp[2]) && rs[2] == MrnaDegrades(MrnaName(x), bp[3])
  {
    var rs := TranscriptionRules(x, kfKrKcat, kDeg, tfs, onOff);
    TranscriptionCounts(x, kfKrKcat, kDeg, tfs, onOff);
    assert rs[0] == rs[..3][0] && rs[1] == rs[..3][1] && rs[2] == rs[..3][2];
  }

  lemma TfRulesAtPos(x: string, kfKrKcat: RateTable, kDeg: real, tfs: TfArg, onOff: Option<RateTable>, i: nat)
    requires RatesReady(kfKrKcat, tfs, onOff) && i < |TfEntries(tfs)|
    ensures var rs := TranscriptionRules(x, kfKrKcat, kDeg, tfs, onOff);
            var b := TfBlock(GeneName(x), TfEntries(tfs), Rows(kfKrKcat), OnOffRows(tfs, onOff), i);
            var tf := TfEntries(tfs)[i];
            |rs| == 3 + 3 * |TfEntries(tfs)| &&
            rs[3 + 3 * i] == BindsTf(GeneName(x), tf, b[0], b[1]) &&
            rs[4 + 3 * i] == TfBindsRnap(GeneName(x), tf, b[2], b[3]) &&
            rs[5 + 3 * i] == TfRnapTranscribes(GeneName(x), MrnaName(x), tf, b[4])
  {
    TfPositions(x, kfKrKcat, kDeg, tfs, onOff, i);
    var rs := TranscriptionRules(x, kfKrKcat, kDeg, tfs, onOff);
    var rules := rs[3 + 3 * i..6 + 3 * i];
    assert rs[3 + 3 * i] == rules[0] && rs[4 + 3 * i] == rules[1] && rs[5 + 3 * i] == rules[2];
  }

  /** An irreversible rule either adds the free transcript `mrna` to its one
      reactant complex, kept as it is, or degrades a free `mrna`. */
  predicate TemplateKept(r: Rule, mrna: MonomerPattern) {
    r.rate.Irreversible? ==>
      (|r.reactants| == 1 && r.products == r.reactants + [[mrna]]) ||
      (r.reactants == [[mrna]] && r.products == [])
  }

  lemma BasalTemplateKept(x: string, kfKrKcat: RateTable, kDeg: real, tfs: TfArg, onOff: Option<RateTable>, k: nat)
    requires RatesReady(kfKrKcat, tfs, onOff) && k < 3
    ensures |TranscriptionRules(x, kfKrKcat, kDeg, tfs, onOff)| >= 3
    ensures TemplateKept(TranscriptionRules(x, kfKrKcat, kDeg, tfs, onOff)[k], FreeMrna(MrnaName(x)))
  {
    BasalRulesAt(x, kfKrKcat, kDeg, tfs, onOff);
  }

  lemma TfTemplateKept(x: string, kfKrKcat: RateTable, kDeg: real, tfs: TfArg, onOff: Option<RateTable>, i: nat, j: nat)
    requires RatesReady(kfKrKcat, tfs, onOff) && i < |TfEntries(tfs)| && j < 3
    ensures |TranscriptionRules(x, kfKrKcat, kDeg, tfs, onOff)| == 3 + 3 * |TfEntries(tfs)|
    ensures TemplateKept(TranscriptionRules(x, kfKrKcat, kDeg, tfs, onOff)[3 + 3 * i + j], FreeMrna(MrnaName(x)))
  {
    TfRulesAtPos(x, kfKrKcat, kDeg, tfs, onOff, i);
    assert j == 0 || j == 1 || j == 2;
  }

  lemma TemplateKeptAt(x: string, kfKrKcat: RateTable, kDeg: real, tfs: TfArg, onOff: Option<RateTable>, k: nat)
    requires RatesReady(kfKrKcat, tfs, onOff) && k < |TranscriptionRules(x, kfKrKcat, kDeg, tfs, onOff)|
    ensures TemplateKept(TranscriptionRules(x, kfKrKcat, kDeg, tfs, onOff)[k], FreeMrna(MrnaName(x)))
  {
    TranscriptionCounts(x, kfKrKcat, kDeg, tfs, onOff);
    if k < 3 {
      BasalTemplateKept(x, kfKrKcat, kDeg, tfs, onOff, k);
    } else {
      var i, j := (k - 3) / 3, (k - 3) % 3;
      assert k == 3 + 3 * i + j;
      TfTemplateKept(x, kfKrKcat, kDeg, tfs, onOff, i, j);
    }
  }

  /** Every irreversible rule of a call either transcribes, keeping its one
      reactant complex unchanged and adding one free `mRNA_X`, or is the
      degradation of a free `mRNA_X`. */
  lemma TranscriptionKeepsTemplate(x: string, kfKrKcat: RateTable, kDeg: real, tfs: TfArg, onOff: Option<RateTable>)
    requires RatesReady(kfKrKcat, tfs, onOff)
    ensures forall r | r in TranscriptionRules(x, kfKrKcat, kDeg, tfs, onOff) && r.rate.Irreversible? ::
              (|r.reactants| == 1 && r.products == r.reactants + [[FreeMrna(MrnaName(x))]]) ||
              (r.reactants == [[FreeMrna(MrnaName(x))]] && r.products == [])
  {
    var rs := TranscriptionRules(x, kfKrKcat, kDeg, tfs, onOff);
    forall r | r in rs && r.rate.Irreversible?
      ensures (|r.reactants| == 1 && r.products == r.reactants + [[FreeMrna(MrnaName(x))]]) ||
              (r.reactants == [[FreeMrna(MrnaName(x))]] && r.products == [])
    {
      var k :| 0 <= k < |rs| && rs[k] == r;
      TemplateKeptAt(x, kfKrKcat, kDeg, tfs, onOff, k);
    }
  }

  /** Basal RNAp binding needs a free gene and a free RNAp and leaves the
      gene's `tf` site free; basal transcription runs on a gene holding RNAp
      and no transcription factor. */
  lemma BasalGating(x: string, kfKrKcat: RateTable, kDeg: real, tfs: TfArg, onOff: Option<RateTable>)
    requires RatesReady(kfKrKcat, tfs, onOff)
    ensures var rs := TranscriptionRules(x, kfKrKcat, kDeg, tfs, onOff);
            |rs| >= 3 && |rs[0].reactants| == 2 && |rs[0].reactants[0]| == 1 &&
            |rs[0].products| == 1 && |rs[0].products[0]| == 2 &&
            rs[0].reactants[0][0].monomer == GeneName(x) &&
            GeneSites(rs[0].reactants[0][0]) == (Some(Unbound), Some(Unbound)) &&
            rs[0].reactants[1] == [Rnap(Unbound)] &&
            GeneSites(rs[0].products[0][0]) == (Some(Bond(1)), Some(Unbound)) &&
            |rs[1].reactants| == 1 && |rs[1].reactants[0]| == 2 && rs[1].reactants[0][0].monomer == GeneName(x) &&
            GeneSites(rs[1].reactants[0][0]) == (Some(Bond(1)), Some(Unbound)) &&
            ValueAt(rs[1].reactants[0][1].conditions, "gene") == Some(Bond(1))
  {
    BasalRulesAt(x, kfKrKcat, kDeg, tfs, onOff);
    GeneSitesOf(GeneName(x), Unbound, Unbound);
    GeneSitesOf(GeneName(x), Bond(1), Unbound);
    RnapSiteOf(Bond(1));
  }

  /** TF binding needs a free gene; TF-gated RNAp binding needs `tf` bound
      (to the factor's `gene` site) and `rnap` free; TF-gated transcription
      runs on a gene whose `tf` and `rnap` are both bound. */
  lemma TfGating(x: string, kfKrKcat: RateTable, kDeg: real, tfs: TfArg, onOff: Option<RateTable>, i: nat)
    requires RatesReady(kfKrKcat, tfs, onOff) && i < |TfEntries(tfs)|
    ensures var rs := TranscriptionRules(x, kfKrKcat, kDeg, tfs, onOff);
            var t := TfEntries(tfs)[i].monomer;
            |rs| == 3 + 3 * |TfEntries(tfs)| &&
            |rs[3 + 3 * i].reactants| == 2 && |rs[3 + 3 * i].reactants[0]| == 1 && |rs[3 + 3 * i].reactants[1]| == 1 &&
            |rs[4 + 3 * i].reactants| == 2 && |rs[4 + 3 * i].reactants[0]| == 2 &&
            |rs[5 + 3 * i].reactants| == 1 && |rs[5 + 3 * i].reactants[0]| == 3 &&
            rs[3 + 3 * i].reactants[0][0].monomer == GeneName(x) &&
            GeneSites(rs[3 + 3 * i].reactants[0][0]) == (Some(Unbound), Some(Unbound)) &&
            rs[3 + 3 * i].reactants[1][0].monomer == t &&
            ValueAt(rs[3 + 3 * i].reactants[1][0].conditions, "gene") == Some(Unbound) &&
            rs[4 + 3 * i].reactants[0][0].monomer == GeneName(x) &&
            GeneSites(rs[4 + 3 * i].reactants[0][0]) == (Some(Unbound), Some(Bond(1))) &&
            rs[4 + 3 * i].reactants[0][1].monomer == t &&
            ValueAt(rs[4 + 3 * i].reactants[0][1].conditions, "gene") == Some(Bond(1)) &&
            rs[5 + 3 * i].reactants[0][0].monomer == GeneName(x) &&
            GeneSites(rs[5 + 3 * i].reactants[0][0]) == (Some(Bond(2)), Some(Bond(1))) &&
            ValueAt(rs[5 + 3 * i].reactants[0][1].conditions, "gene") == Some(Bond(1)) &&
            ValueAt(rs[5 + 3 * i].reactants[0][2].conditions, "gene") == Some(Bond(2))
  {
    TfRulesAtPos(x, kfKrKcat, kDeg, tfs, onOff, i);
    var tf := TfEntries(tfs)[i];
    SetSiteValueAt(tf.conditions, "gene", Unbound);
    SetSiteValueAt(tf.conditions, "gene", Bond(1));
    GeneSitesOf(GeneName(x), Unbound, Unbound);
    GeneSitesOf(GeneName(x), Unbound, Bond(1));
    GeneSitesOf(GeneName(x), Bond(2), Bond(1));
    RnapSiteOf(Bond(2));
  }

  // ---- distinct parameter names ----

  /** The role prefix of the parameter at position `k` of a call's output. */
  function ParamRole(k: nat): string {
    if k < 4 then ["kf", "kr", "kcat", "kdeg"][k] else TfRole((k - 4) % 5)
  }

  /** The body of the parameter name at position `k`: gene, gene·TF or mRNA. */
  function ParamBody(g: string, m: string, ts: seq<MonomerPattern>, k: nat): string
    requires k < 4 + 5 * |ts|
  {
    if k < 3 then g + "_RNAp"
    else if k == 3 then m
    else TfBody(g, ts[(k - 4) / 5].monomer, (k - 4) % 5)
  }

  /** Parameter `j` of a factor's block is named by role `j` and body `j`. */
  lemma TfParamNames(g: string, t: string, on: seq<real>, row: seq<real>, j: nat)
    requires |on| >= 2 && |row| >= 3 && j < 5
    ensures TfParameters(g, t, on, row)[j].name == RateName(TfRole(j), TfBody(g, t, j))
  {
    assert j == 0 || j == 1 || j == 2 || j == 3 || j == 4;
  }

  lemma ParamAtBlock(g: string, m: string, ts: seq<MonomerPattern>, i: nat, j: nat)
    requires i < |ts| && j < 5
    ensures ParamRole(4 + 5 * i + j) == TfRole(j)
    ensures ParamBody(g, m, ts, 4 + 5 * i + j) == TfBody(g, ts[i].monomer, j)
  {
    var k := 4 + 5 * i + j;
    assert (k - 4) / 5 == i && (k - 4) % 5 == j;
  }

  lemma TfParamNameAt(x: string, kfKrKcat: RateTable, kDeg: real, tfs: TfArg, onOff: Option<RateTable>, i: nat, j: nat)
    requires RatesReady(kfKrKcat, tfs, onOff) && i < |TfEntries(tfs)| && j < 5
    ensures |TranscriptionParameters(x, kfKrKcat, kDeg, tfs, onOff)| == 4 + 5 * |TfEntries(tfs)|
    ensures TranscriptionParameters(x, kfKrKcat, kDeg, tfs, onOff)[4 + 5 * i + j].name ==
            RateName(TfRole(j), TfBody(GeneName(x), TfEntries(tfs)[i].monomer, j))
  {
    TfPositions(x, kfKrKcat, kDeg, tfs, onOff, i);
    var ps := TranscriptionParameters(x, kfKrKcat, kDeg, tfs, onOff);
    assert ps[4 + 5 * i + j] == ps[4 + 5 * i..9 + 5 * i][j];
    TfParamNames(GeneName(x), TfEntries(tfs)[i].monomer, OnOffRows(tfs, onOff)[i], Rows(kfKrKcat)[i + 1], j);
  }

  lemma BasalParamNameAt(x: string, kfKrKcat: RateTable, kDeg: real, tfs: TfArg, onOff: Option<RateTable>, k: nat)
    requires RatesReady(kfKrKcat, tfs, onOff) && k < 4
    ensures |TranscriptionParameters(x, kfKrKcat, kDeg, tfs, onOff)| == 4 + 5 * |TfEntries(tfs)|
    ensures TranscriptionParameters(x, kfKrKcat, kDeg, tfs, onOff)[k].name ==
            RateName(ParamRole(k), ParamBody(GeneName(x), MrnaName(x), TfEntries(tfs), k))
  {
    TranscriptionCounts(x, kfKrKcat, kDeg, tfs, onOff);
    var ps := TranscriptionParameters(x, kfKrKcat, kDeg, tfs, onOff);
    var bp := BasalParameters(GeneName(x), MrnaName(x), Rows(kfKrKcat)[0], kDeg);
    assert ps[..4] == bp;
    assert ps[k] == bp[k];
  }

  lemma ParamNameAt(x: string, kfKrKcat: RateTable, kDeg: real, tfs: TfArg, onOff: Option<RateTable>, k: nat)
    requires RatesReady(kfKrKcat, tfs, onOff) && k < 4 + 5 * |TfEntries(tfs)|
    ensures |TranscriptionParameters(x, kfKrKcat, kDeg, tfs, onOff)| == 4 + 5 * |TfEntries(tfs)|
    ensures TranscriptionParameters(x, kfKrKcat, kDeg, tfs, onOff)[k].name ==
            RateName(ParamRole(k), ParamBody(GeneName(x), MrnaName(x), TfEntries(tfs), k))
  {
    if k < 4 {
      BasalParamNameAt(x, kfKrKcat, kDeg, tfs, onOff, k);
    } else {
      var i, j := (k - 4) / 5, (k - 4) % 5;
      assert k == 4 + 5 * i + j;
      TfParamNameAt(x, kfKrKcat, kDeg, tfs, onOff, i, j);
      ParamAtBlock(GeneName(x), MrnaName(x), TfEntries(tfs), i, j);
    }
  }

  /** A role holds no `_`, so role and body can be read back from a name. */
  lemma RateNameInjective(r1: string, b1: string, r2: string, b2: string)
    requires '_' !in r1 && '_' !in r2
    requires RateName(r1, b1) == RateName(r2, b2)
    ensures r1 == r2 && b1 == b2
  {
    assert RateName(r1, b1) == r1 + ("_" + b1);
    assert RateName(r2, b2) == r2 + ("_" + b2);
    Text.SplitAtUnderscore(r1, "_" + b1, r2, "_" + b2);
    Text.CancelLeft("_", b1, b2);
  }

  lemma RolesPlain(k: nat)
    ensures '_' !in ParamRole(k)
  {
    if k >= 4 {
      var j := (k - 4) % 5;
      assert j == 0 || j == 1 || j == 2 || j == 3 || j == 4;
    }
  }

  /** Two positions of one call carry different (role, body) pairs when the
      transcription factors' names are distinct. */
  lemma ParamPositionsDiffer(g: string, m: string, ts: seq<MonomerPattern>, k1: nat, k2: nat)
    requires Distinct(TfNames(ts)) && k1 < k2 < 4 + 5 * |ts|
    ensures ParamRole(k1) != ParamRole(k2) || ParamBody(g, m, ts, k1) != ParamBody(g, m, ts, k2)
  {
    if k2 >= 4 {
      var i2, j2 := (k2 - 4) / 5, (k2 - 4) % 5;
      var t2 := ts[i2].monomer;
      assert k2 == 4 + 5 * i2 + j2;
      if k1 < 4 {
        if j2 >= 2 && k1 < 3 {
          assert |ParamBody(g, m, ts, k2)| == |g| + |t2| + 6;
        }
      } else {
        var i1, j1 := (k1 - 4) / 5, (k1 - 4) % 5;
        var t1 := ts[i1].monomer;
        assert k1 == 4 + 5 * i1 + j1;
        if j1 == j2 {
          assert i1 < i2;
          assert TfNames(ts)[i1] != TfNames(ts)[i2];
          Text.NeLeft(g + "_", t1, t2);
          assert g + "_" + t1 != g + "_" + t2;
          Text.NeRight(g + "_" + t1, g + "_" + t2, "_RNAp");
        } else {
          assert ParamRole(k1) == TfRole(j1) && ParamRole(k2) == TfRole(j2);
        }
      }
    }
  }

  /** Within one call the parameter names are pairwise distinct exactly when
      the transcription factors' monomer names are. */
  lemma TranscriptionParameterNamesDistinct(x: string, kfKrKcat: RateTable, kDeg: real, tfs: TfArg, onOff: Option<RateTable>)
    requires RatesReady(kfKrKcat, tfs, onOff)
    ensures Distinct(ParameterNames(TranscriptionParameters(x, kfKrKcat, kDeg, tfs, onOff))) <==>
            Distinct(TfNames(TfEntries(tfs)))
  {
    var ts := TfEntries(tfs);
    if Distinct(TfNames(ts)) {
      TranscriptionParameterNamesDistinctIf(x, kfKrKcat, kDeg, tfs, onOff);
    } else {
      var i, j :| 0 <= i < j < |ts| && TfNames(ts)[i] == TfNames(ts)[j];
      RepeatedTfParameterNames(x, kfKrKcat, kDeg, tfs, onOff, i, j);
    }
  }

  lemma TranscriptionParameterNamesDistinctIf(x: string, kfKrKcat: RateTable, kDeg: real, tfs: TfArg, onOff: Option<RateTable>)
    requires RatesReady(kfKrKcat, tfs, onOff) && Distinct(TfNames(TfEntries(tfs)))
    ensures Distinct(ParameterNames(TranscriptionParameters(x, kfKrKcat, kDeg, tfs, onOff)))
  {
    var names := ParameterNames(TranscriptionParameters(x, kfKrKcat, kDeg, tfs, onOff));
    TranscriptionCounts(x, kfKrKcat, kDeg, tfs, onOff);
    forall k1, k2 | 0 <= k1 < k2 < |names| ensures names[k1] != names[k2] {
      ParameterNamesDifferAt(x, kfKrKcat, kDeg, tfs, onOff, k1, k2);
    }
  }

  /** Two different parameters of a call differ in name when the factors' names are distinct. */
  lemma ParameterNamesDifferAt(x: string, kfKrKcat: RateTable, kDeg: real, tfs: TfArg, onOff: Option<RateTable>, k1: nat, k2: nat)
    requires RatesReady(kfKrKcat, tfs, onOff) && Distinct(TfNames(TfEntries(tfs)))
    requires k1 < k2 < 4 + 5 * |TfEntries(tfs)|
    ensures |TranscriptionParameters(x, kfKrKcat, kDeg, tfs, onOff)| == 4 + 5 * |TfEntries(tfs)|
    ensures TranscriptionParameters(x, kfKrKcat, kDeg, tfs, onOff)[k1].name != TranscriptionParameters(x, kfKrKcat, kDeg, tfs, onOff)[k2].name
  {
    ParamNameAt(x, kfKrKcat, kDeg, tfs, onOff, k1);
    ParamNameAt(x, kfKrKcat, kDeg, tfs, onOff, k2);
    PositionNamesDiffer(GeneName(x), MrnaName(x), TfEntries(tfs), k1, k2);
  }

  lemma PositionNamesDiffer(g: string, m: string, ts: seq<MonomerPattern>, k1: nat, k2: nat)
    requires Distinct(TfNames(ts)) && k1 < k2 < 4 + 5 * |ts|
    ensures RateName(ParamRole(k1), ParamBody(g, m, ts, k1)) != RateName(ParamRole(k2), ParamBody(g, m, ts, k2))
  {
    RolesPlain(k1);
    RolesPlain(k2);
    ParamPositionsDiffer(g, m, ts, k1, k2);
    if RateName(ParamRole(k1), ParamBody(g, m, ts, k1)) == RateName(ParamRole(k2), ParamBody(g, m, ts, k2)) {
      RateNameInjective(ParamRole(k1), ParamBody(g, m, ts, k1), ParamRole(k2), ParamBody(g, m, ts, k2));
      assert false;
    }
  }

  /** Two factors of the same name give their `kon` parameters the same name. */
  lemma RepeatedTfParameterNames(x: string, kfKrKcat: RateTable, kDeg: real, tfs: TfArg, onOff: Option<RateTable>, i: nat, j: nat)
    requires RatesReady(kfKrKcat, tfs, onOff) && i < j < |TfEntries(tfs)|
    requires TfNames(TfEntries(tfs))[i] == TfNames(TfEntries(tfs))[j]
    ensures !Distinct(ParameterNames(TranscriptionParameters(x, kfKrKcat, kDeg, tfs, onOff)))
  {
    assert TfEntries(tfs)[i].monomer == TfEntries(tfs)[j].monomer;
    SameTfParamNames(x, kfKrKcat, kDeg, tfs, onOff, i, j);
    SharedParameterName(TranscriptionParameters(x, kfKrKcat, kDeg, tfs, onOff), 4 + 5 * i, 4 + 5 * j);
  }

  lemma SameTfParamNames(x: string, kfKrKcat: RateTable, kDeg: real, tfs: TfArg, onOff: Option<RateTable>, i: nat, j: nat)
    requires RatesReady(kfKrKcat, tfs, onOff) && i < j < |TfEntries(tfs)|
    requires TfEntries(tfs)[i].monomer == TfEntries(tfs)[j].monomer
    ensures |TranscriptionParameters(x, kfKrKcat, kDeg, tfs, onOff)| == 4 + 5 * |TfEntries(tfs)|
    ensures TranscriptionParameters(x, kfKrKcat, kDeg, tfs, onOff)[4 + 5 * i].name ==
            TranscriptionParameters(x, kfKrKcat, kDeg, tfs, onOff)[4 + 5 * j].name
  {
    TfParamNameAt(x, kfKrKcat, kDeg, tfs, onOff, i, 0);
    TfParamNameAt(x, kfKrKcat, kDeg, tfs, onOff, j, 0);
  }

  // ---- distinct rule names ----

  /** The rules of a call that are named `g_X` + suffix (all but the mRNA degradation). */
  datatype RuleKind = BasalBindsKind | BasalTranscribesKind | TfBindsKind(t: string) | TfBindsRnapKind(t: string) | TfTranscribesKind(t: string)

  function Suffix(r: RuleKind): string {
    match r
    case BasalBindsKind => "_binds_RNAp"
    case BasalTranscribesKind => "_RNAp_transcribes"
    case TfBindsKind(t) => "_binds_" + t
    case TfBindsRnapKind(t) => "_" + t + "_binds_RNAp"
    case TfTranscribesKind(t) => "_" + t + "_RNAp_transcribes"
  }

  function Rank(r: RuleKind): nat {
    match r
    case BasalBindsKind => 0
    case BasalTranscribesKind => 1
    case TfBindsKind(_) => 2
    case TfBindsRnapKind(_) => 3
    case TfTranscribesKind(_) => 4
  }

  /** Two rule kinds whose suffixes cannot meet: a factor binding rule is not
      `RNAp`'s, and it does not meet the other kind's factor rules. */
  predicate KindsApart(a: RuleKind, b: RuleKind) {
    (a.TfBindsKind? ==> a.t != "RNAp") && (b.TfBindsKind? ==> b.t != "RNAp") &&
    (a.TfBindsKind? && (b.TfBindsRnapKind? || b.TfTranscribesKind?) ==> !BindsMeets(a.t, b.t)) &&
    (b.TfBindsKind? && (a.TfBindsRnapKind? || a.TfTranscribesKind?) ==> !BindsMeets(b.t, a.t))
  }

  /** `_binds_<t>` meets `_<u>` + rest only where `binds_<t>` meets `<u>` + rest. */
  lemma BindsSuffixMeets(t: string, u: string, rest: string)
    requires "_binds_" + t == "_" + u + rest
    ensures "binds_" + t == u + rest
  {
    assert "_binds_" + t == "_" + ("binds_" + t);
    assert "_" + u + rest == "_" + (u + rest);
    Text.CancelLeft("_", "binds_" + t, u + rest);
  }

  lemma SuffixesDifferRanked(a: RuleKind, b: RuleKind)
    requires KindsApart(a, b) && a != b && Rank(a) <= Rank(b)
    ensures Suffix(a) != Suffix(b)
  {
    var sa, sb := Suffix(a), Suffix(b);
    match a
    case BasalBindsKind =>
      if b.TfBindsKind? {
        Text.NeLeft("_binds_", "RNAp", b.t);
      }
    case BasalTranscribesKind =>
      if b.TfBindsKind? {
        assert sa[1] == 'R' && sb[1] == 'b';
      } else if b.TfBindsRnapKind? {
        assert sa[|sa| - 1] == 's' && sb[|sb| - 1] == 'p';
      }
    case TfBindsKind(t) =>
      if b.TfBindsKind? {
        Text.NeLeft("_binds_", t, b.t);
      } else if b.TfBindsRnapKind? {
        if sa == sb {
          BindsSuffixMeets(t, b.t, "_binds_RNAp");
        }
      } else {
        if sa == sb {
          BindsSuffixMeets(t, b.t, "_RNAp_transcribes");
        }
      }
    case TfBindsRnapKind(t) =>
      if b.TfBindsRnapKind? {
        Text.NeLeft("_", t, b.t);
        Text.NeRight("_" + t, "_" + b.t, "_binds_RNAp");
      } else {
        assert sa[|sa| - 1] == 'p' && sb[|sb| - 1] == 's';
      }
    case TfTranscribesKind(t) =>
      Text.NeLeft("_", t, b.t);
      Text.NeRight("_" + t, "_" + b.t, "_RNAp_transcribes");
  }

  /** Different rule kinds that are apart have different suffixes. */
  lemma SuffixesDiffer(a: RuleKind, b: RuleKind)
    requires KindsApart(a, b) && a != b
    ensures Suffix(a) != Suffix(b)
  {
    if Rank(a) <= Rank(b) {
      SuffixesDifferRanked(a, b);
    } else {
      SuffixesDifferRanked(b, a);
    }
  }

  /** The kind of rule `k` of a call (position 2, the mRNA degradation, has none). */
  function KindAt(ts: seq<MonomerPattern>, k: nat): RuleKind
    requires k != 2 && k < 3 + 3 * |ts|
  {
    if k == 0 then BasalBindsKind
    else if k == 1 then BasalTranscribesKind
    else
      var t := ts[(k - 3) / 3].monomer;
      if (k - 3) % 3 == 0 then TfBindsKind(t)
      else if (k - 3) % 3 == 1 then TfBindsRnapKind(t)
      else TfTranscribesKind(t)
  }

  /** The kind of rule `j` of a factor's block. */
  function TfKind(t: string, j: nat): RuleKind {
    if j == 0 then TfBindsKind(t) else if j == 1 then TfBindsRnapKind(t) else TfTranscribesKind(t)
  }

  /** Rule `j` of a factor's block is named `g` + the suffix of its kind. */
  lemma TfRuleNames(g: string, m: string, tf: MonomerPattern, ps: seq<Parameter>, j: nat)
    requires |ps| == 5 && j < 3
    ensures TfRules(g, m, tf, ps)[j].name == g + Suffix(TfKind(tf.monomer, j))
  {
    var t := tf.monomer;
    if j == 0 {
      assert g + "_binds_" + t == g + ("_binds_" + t);
    } else if j == 1 {
      assert g + "_" + t + "_binds_RNAp" == g + ("_" + t + "_binds_RNAp");
    } else {
      assert g + "_" + t + "_RNAp_transcribes" == g + ("_" + t + "_RNAp_transcribes");
    }
  }

  lemma KindAtBlock(ts: seq<MonomerPattern>, i: nat, j: nat)
    requires i < |ts| && j < 3
    ensures KindAt(ts, 3 + 3 * i + j) == TfKind(ts[i].monomer, j)
  {
    var k := 3 + 3 * i + j;
    assert (k - 3) / 3 == i && (k - 3) % 3 == j;
  }

  lemma TfRuleNameAt(x: string, kfKrKcat: RateTable, kDeg: real, tfs: TfArg, onOff: Option<RateTable>, i: nat, j: nat)
    requires RatesReady(kfKrKcat, tfs, onOff) && i < |TfEntries(tfs)| && j < 3
    ensures |TranscriptionRules(x, kfKrKcat, kDeg, tfs, onOff)| == 3 + 3 * |TfEntries(tfs)|
    ensures TranscriptionRules(x, kfKrKcat, kDeg, tfs, onOff)[3 + 3 * i + j].name == GeneName(x) + Suffix(TfKind(TfEntries(tfs)[i].monomer, j))
  {
    TfPositions(x, kfKrKcat, kDeg, tfs, onOff, i);
    var rs := TranscriptionRules(x, kfKrKcat, kDeg, tfs, onOff);
    var block := TfBlock(GeneName(x), TfEntries(tfs), Rows(kfKrKcat), OnOffRows(tfs, onOff), i);
    assert rs[3 + 3 * i + j] == rs[3 + 3 * i..6 + 3 * i][j];
    TfRuleNames(GeneName(x), MrnaName(x), TfEntries(tfs)[i], block, j);
  }

  lemma BasalRuleNameAt(x: string, kfKrKcat: RateTable, kDeg: real, tfs: TfArg, onOff: Option<RateTable>, k: nat)
    requires RatesReady(kfKrKcat, tfs, onOff) && k < 3
    ensures |TranscriptionRules(x, kfKrKcat, kDeg, tfs, onOff)| == 3 + 3 * |TfEntries(tfs)|
    ensures k == 2 ==> TranscriptionRules(x, kfKrKcat, kDeg, tfs, onOff)[k].name == MrnaName(x) + "_degrades"
    ensures k != 2 ==> TranscriptionRules(x, kfKrKcat, kDeg, tfs, onOff)[k].name == GeneName(x) + Suffix(KindAt(TfEntries(tfs), k))
  {
    TranscriptionCounts(x, kfKrKcat, kDeg, tfs, onOff);
    BasalRulesAt(x, kfKrKcat, kDeg, tfs, onOff);
  }

  lemma RuleNameAt(x: string, kfKrKcat: RateTable, kDeg: real, tfs: TfArg, onOff: Option<RateTable>, k: nat)
    requires RatesReady(kfKrKcat, tfs, onOff) && k < 3 + 3 * |TfEntries(tfs)|
    ensures |TranscriptionRules(x, kfKrKcat, kDeg, tfs, onOff)| == 3 + 3 * |TfEntries(tfs)|
    ensures k == 2 ==> TranscriptionRules(x, kfKrKcat, kDeg, tfs, onOff)[k].name == MrnaName(x) + "_degrades"
    ensures k != 2 ==> TranscriptionRules(x, kfKrKcat, kDeg, tfs, onOff)[k].name == GeneName(x) + Suffix(KindAt(TfEntries(tfs), k))
  {
    if k < 3 {
      BasalRuleNameAt(x, kfKrKcat, kDeg, tfs, onOff, k);
    } else {
      var i, j := (k - 3) / 3, (k - 3) % 3;
      assert k == 3 + 3 * i + j;
      TfRuleNameAt(x, kfKrKcat, kDeg, tfs, onOff, i, j);
      KindAtBlock(TfEntries(tfs), i, j);
    }
  }

  lemma KindsDiffer(ts: seq<MonomerPattern>, k1: nat, k2: nat)
    requires Distinct(TfNames(ts)) && k1 < k2 < 3 + 3 * |ts| && k1 != 2 && k2 != 2
    ensures KindAt(ts, k1) != KindAt(ts, k2)
  {
    if k1 >= 3 {
      var i1, j1, i2, j2 := (k1 - 3) / 3, (k1 - 3) % 3, (k2 - 3) / 3, (k2 - 3) % 3;
      assert k1 == 3 + 3 * i1 + j1 && k2 == 3 + 3 * i2 + j2;
      if j1 == j2 {
        assert i1 < i2;
        assert TfNames(ts)[i1] != TfNames(ts)[i2];
      }
    }
  }

  /** Two different rules of a call differ in name when the factors' names are
      distinct, none is `RNAp` and no binding rule meets another factor's rules. */
  lemma RuleNamesDifferAt(x: string, kfKrKcat: RateTable, kDeg: real, tfs: TfArg, onOff: Option<RateTable>, k1: nat, k2: nat)
    requires RatesReady(kfKrKcat, tfs, onOff) && k1 < k2 < 3 + 3 * |TfEntries(tfs)|
    requires Distinct(TfNames(TfEntries(tfs)))
    requires forall i | 0 <= i < |TfEntries(tfs)| :: TfEntries(tfs)[i].monomer != "RNAp"
    requires NoBindsMeeting(TfEntries(tfs))
    ensures |TranscriptionRules(x, kfKrKcat, kDeg, tfs, onOff)| == 3 + 3 * |TfEntries(tfs)|
    ensures TranscriptionRules(x, kfKrKcat, kDeg, tfs, onOff)[k1].name != TranscriptionRules(x, kfKrKcat, kDeg, tfs, onOff)[k2].name
  {
    RuleNameAt(x, kfKrKcat, kDeg, tfs, onOff, k1);
    RuleNameAt(x, kfKrKcat, kDeg, tfs, onOff, k2);
    if k1 == 2 || k2 == 2 {
      GeneAndMrnaNamesDiffer(x, k1 == 2, TfEntries(tfs), k1, k2);
    } else {
      KindNamesDiffer(GeneName(x), TfEntries(tfs), k1, k2);
    }
  }

  /** A gene-named rule and the mRNA degradation differ in their first letter. */
  lemma GeneAndMrnaNamesDiffer(x: string, firstIsMrna: bool, ts: seq<MonomerPattern>, k1: nat, k2: nat)
    requires k1 < 3 + 3 * |ts| && k2 < 3 + 3 * |ts|
    requires firstIsMrna ==> k1 == 2 && k2 != 2
    requires !firstIsMrna ==> k2 == 2 && k1 != 2
    ensures firstIsMrna ==> MrnaName(x) + "_degrades" != GeneName(x) + Suffix(KindAt(ts, k2))
    ensures !firstIsMrna ==> GeneName(x) + Suffix(KindAt(ts, k1)) != MrnaName(x) + "_degrades"
  {
    assert (MrnaName(x) + "_degrades")[0] == 'm';
    if firstIsMrna {
      assert (GeneName(x) + Suffix(KindAt(ts, k2)))[0] == 'g';
    } else {
      assert (GeneName(x) + Suffix(KindAt(ts, k1)))[0] == 'g';
    }
  }

  /** Two different gene-named positions carry different names. */
  lemma KindNamesDiffer(g: string, ts: seq<MonomerPattern>, k1: nat, k2: nat)
    requires Distinct(TfNames(ts)) && k1 < k2 < 3 + 3 * |ts| && k1 != 2 && k2 != 2
    requires forall i | 0 <= i < |ts| :: ts[i].monomer != "RNAp"
    requires NoBindsMeeting(ts)
    ensures g + Suffix(KindAt(ts, k1)) != g + Suffix(KindAt(ts, k2))
  {
    KindsDiffer(ts, k1, k2);
    KindsApartAt(ts, k1);
    KindsApartAt(ts, k2);
    SuffixesDiffer(KindAt(ts, k1), KindAt(ts, k2));
    Text.NeLeft(g, Suffix(KindAt(ts, k1)), Suffix(KindAt(ts, k2)));
  }

  /** A factor rule kind carries the name of the factor it was made for. */
  lemma KindsApartAt(ts: seq<MonomerPattern>, k: nat)
    requires k != 2 && k < 3 + 3 * |ts|
    ensures k >= 3 ==> KindAt(ts, k).t == ts[(k - 3) / 3].monomer
  {
  }

  /** The rule names of one call are pairwise distinct exactly when the
      factors' names are distinct, none of them is `RNAp`, and no factor's
      binding rule meets another factor's RNAp-binding or transcription rule. */
  lemma TranscriptionRuleNamesDistinct(x: string, kfKrKcat: RateTable, kDeg: real, tfs: TfArg, onOff: Option<RateTable>)
    requires RatesReady(kfKrKcat, tfs, onOff)
    ensures Distinct(RuleNames(TranscriptionRules(x, kfKrKcat, kDeg, tfs, onOff))) <==>
            (Distinct(TfNames(TfEntries(tfs))) &&
             (forall i | 0 <= i < |TfEntries(tfs)| :: TfEntries(tfs)[i].monomer != "RNAp") &&
             NoBindsMeeting(TfEntries(tfs)))
  {
    var rs := TranscriptionRules(x, kfKrKcat, kDeg, tfs, onOff);
    var ts := TfEntries(tfs);
    if Distinct(TfNames(ts)) && (forall i | 0 <= i < |ts| :: ts[i].monomer != "RNAp") && NoBindsMeeting(ts) {
      TranscriptionRuleNamesDistinctIf(x, kfKrKcat, kDeg, tfs, onOff);
    }
    if !Distinct(TfNames(ts)) {
      var i, j :| 0 <= i < j < |ts| && TfNames(ts)[i] == TfNames(ts)[j];
      RepeatedTfRuleNames(x, kfKrKcat, kDeg, tfs, onOff, i, j);
    }
    if exists i | 0 <= i < |ts| :: ts[i].monomer == "RNAp" {
      var i :| 0 <= i < |ts| && ts[i].monomer == "RNAp";
      RnapTfRuleNames(x, kfKrKcat, kDeg, tfs, onOff, i);
    }
    if !NoBindsMeeting(ts) {
      var i, j :| 0 <= i < |ts| && 0 <= j < |ts| && BindsMeets(ts[i].monomer, ts[j].monomer);
      var k := if "binds_" + ts[i].monomer == ts[j].monomer + "_binds_RNAp" then 1 else 2;
      BindsMeetsSuffix(GeneName(x), ts[i].monomer, ts[j].monomer, k);
      BindsMeetingRuleNames(x, kfKrKcat, kDeg, tfs, onOff, i, j, k);
    }
  }

  /** Two factors of the same name give their binding rules the same name. */
  lemma RepeatedTfRuleNames(x: string, kfKrKcat: RateTable, kDeg: real, tfs: TfArg, onOff: Option<RateTable>, i: nat, j: nat)
    requires RatesReady(kfKrKcat, tfs, onOff) && i < j < |TfEntries(tfs)|
    requires TfNames(TfEntries(tfs))[i] == TfNames(TfEntries(tfs))[j]
    ensures !Distinct(RuleNames(TranscriptionRules(x, kfKrKcat, kDeg, tfs, onOff)))
  {
    assert TfEntries(tfs)[i].monomer == TfEntries(tfs)[j].monomer;
    SameTfRuleNames(x, kfKrKcat, kDeg, tfs, onOff, i, j);
    SharedRuleName(TranscriptionRules(x, kfKrKcat, kDeg, tfs, onOff), 3 + 3 * i, 3 + 3 * j);
  }

  lemma SameTfRuleNames(x: string, kfKrKcat: RateTable, kDeg: real, tfs: TfArg, onOff: Option<RateTable>, i: nat, j: nat)
    requires RatesReady(kfKrKcat, tfs, onOff) && i < j < |TfEntries(tfs)|
    requires TfEntries(tfs)[i].monomer == TfEntries(tfs)[j].monomer
    ensures |TranscriptionRules(x, kfKrKcat, kDeg, tfs, onOff)| == 3 + 3 * |TfEntries(tfs)|
    ensures TranscriptionRules(x, kfKrKcat, kDeg, tfs, onOff)[3 + 3 * i].name == TranscriptionRules(x, kfKrKcat, kDeg, tfs, onOff)[3 + 3 * j].name
  {
    TfRuleNameAt(x, kfKrKcat, kDeg, tfs, onOff, i, 0);
    TfRuleNameAt(x, kfKrKcat, kDeg, tfs, onOff, j, 0);
  }

  lemma BindsRnapSpelled()
    ensures "_binds_" + "RNAp" == "_binds_RNAp"
  {
  }

  /** A factor named `RNAp` gives its binding rule the basal binding rule's name. */
  lemma RnapTfRuleNames(x: string, kfKrKcat: RateTable, kDeg: real, tfs: TfArg, onOff: Option<RateTable>, i: nat)
    requires RatesReady(kfKrKcat, tfs, onOff) && i < |TfEntries(tfs)|
    requires TfEntries(tfs)[i].monomer == "RNAp"
    ensures !Distinct(RuleNames(TranscriptionRules(x, kfKrKcat, kDeg, tfs, onOff)))
  {
    BasalRuleNameAt(x, kfKrKcat, kDeg, tfs, onOff, 0);
    TfRuleNameAt(x, kfKrKcat, kDeg, tfs, onOff, i, 0);
    BindsRnapSpelled();
    SharedRuleName(TranscriptionRules(x, kfKrKcat, kDeg, tfs, onOff), 0, 3 + 3 * i);
  }

  lemma TranscriptionRuleNamesDistinctIf(x: string, kfKrKcat: RateTable, kDeg: real, tfs: TfArg, onOff: Option<RateTable>)
    requires RatesReady(kfKrKcat, tfs, onOff)
    requires Distinct(TfNames(TfEntries(tfs)))
    requires forall i | 0 <= i < |TfEntries(tfs)| :: TfEntries(tfs)[i].monomer != "RNAp"
    requires NoBindsMeeting(TfEntries(tfs))
    ensures Distinct(RuleNames(TranscriptionRules(x, kfKrKcat, kDeg, tfs, onOff)))
  {
    var rs := TranscriptionRules(x, kfKrKcat, kDeg, tfs, onOff);
    var names := RuleNames(rs);
    TranscriptionCounts(x, kfKrKcat, kDeg, tfs, onOff);
    forall k1, k2 | 0 <= k1 < k2 < |names| ensures names[k1] != names[k2] {
      RuleNamesDifferAt(x, kfKrKcat, kDeg, tfs, onOff, k1, k2);
    }
  }

  lemma BindsNamesMeet(g: string, u: string)
    ensures g + "_binds_" + (u + "_binds_RNAp") == g + "_" + ("binds_" + u) + "_binds_RNAp"
  {
  }

  /** Distinct factor names, none `RNAp`, are not enough on their own: a factor
      `binds_U` and a factor `U_binds_RNAp` give two rules the same name. */
  lemma TfRuleNamesCanCollide(x: string, kfKrKcat: RateTable, kDeg: real, tfs: TfArg, onOff: Option<RateTable>, i: nat, j: nat, u: string)
    requires RatesReady(kfKrKcat, tfs, onOff) && i < |TfEntries(tfs)| && j < |TfEntries(tfs)|
    requires TfEntries(tfs)[i].monomer == u + "_binds_RNAp" && TfEntries(tfs)[j].monomer == "binds_" + u
    ensures var rs := TranscriptionRules(x, kfKrKcat, kDeg, tfs, onOff);
            |rs| == 3 + 3 * |TfEntries(tfs)| && rs[3 + 3 * i].name == rs[4 + 3 * j].name &&
            !Distinct(RuleNames(rs))
  {
    var rs := TranscriptionRules(x, kfKrKcat, kDeg, tfs, onOff);
    var k1, k2 := 3 + 3 * i, 4 + 3 * j;
    TfRuleOutput(x, kfKrKcat, kDeg, tfs, onOff, i);
    TfRuleOutput(x, kfKrKcat, kDeg, tfs, onOff, j);
    BindsNamesMeet("g_" + x, u);
    assert rs[k1].name == rs[k2].name;
    if i <= j {
      assert k1 < k2;
    } else {
      assert k1 > k2;
    }
    SharedRuleName(rs, k1, k2);
  }

  /** When factor `i`'s binding rule meets factor `j`'s RNAp-binding or
      transcription rule, the call names two rules alike. */
  lemma BindsMeetingRuleNames(x: string, kfKrKcat: RateTable, kDeg: real, tfs: TfArg, onOff: Option<RateTable>, i: nat, j: nat, k: nat)
    requires RatesReady(kfKrKcat, tfs, onOff) && i < |TfEntries(tfs)| && j < |TfEntries(tfs)| && (k == 1 || k == 2)
    requires GeneName(x) + Suffix(TfKind(TfEntries(tfs)[i].monomer, 0)) == GeneName(x) + Suffix(TfKind(TfEntries(tfs)[j].monomer, k))
    ensures var rs := TranscriptionRules(x, kfKrKcat, kDeg, tfs, onOff);
            |rs| == 3 + 3 * |TfEntries(tfs)| && rs[3 + 3 * i].name == rs[3 + 3 * j + k].name &&
            !Distinct(RuleNames(rs))
  {
    BindsMeetingAt(x, kfKrKcat, kDeg, tfs, onOff, i, j, k);
    if i <= j {
      assert 3 + 3 * i < 3 + 3 * j + k;
    } else {
      assert 3 + 3 * i >= 6 + 3 * j;
    }
    SharedRuleName(TranscriptionRules(x, kfKrKcat, kDeg, tfs, onOff), 3 + 3 * i, 3 + 3 * j + k);
  }

  /** `g_binds_<t>` is the name of factor `u`'s rule `k`, for `k` 1 or 2. */
  lemma BindsMeetsSuffix(g: string, t: string, u: string, k: nat)
    requires k == 1 || k == 2
    requires k == 1 ==> "binds_" + t == u + "_binds_RNAp"
    requires k == 2 ==> "binds_" + t == u + "_RNAp_transcribes"
    ensures g + Suffix(TfKind(t, 0)) == g + Suffix(TfKind(u, k))
  {
    assert "_binds_" + t == "_" + ("binds_" + t);
    assert "_" + u + "_binds_RNAp" == "_" + (u + "_binds_RNAp");
    assert "_" + u + "_RNAp_transcribes" == "_" + (u + "_RNAp_transcribes");
  }

  lemma BindsMeetingAt(x: string, kfKrKcat: RateTable, kDeg: real, tfs: TfArg, onOff: Option<RateTable>, i: nat, j: nat, k: nat)
    requires RatesReady(kfKrKcat, tfs, onOff) && i < |TfEntries(tfs)| && j < |TfEntries(tfs)| && (k == 1 || k == 2)
    requires GeneName(x) + Suffix(TfKind(TfEntries(tfs)[i].monomer, 0)) == GeneName(x) + Suffix(TfKind(TfEntries(tfs)[j].monomer, k))
    ensures var rs := TranscriptionRules(x, kfKrKcat, kDeg, tfs, onOff);
            |rs| == 3 + 3 * |TfEntries(tfs)| && rs[3 + 3 * i].name == rs[3 + 3 * j + k].name
  {
    TfRuleNameAt(x, kfKrKcat, kDeg, tfs, onOff, i, 0);
    TfRuleNameAt(x, kfKrKcat, kDeg, tfs, onOff, j, k);
  }

  // ---- names across calls ----

  /** Calls for two different genes can still create the same names: gene `a`
      with a factor `b_c` and gene `a_b` with a factor `c` both create
      `kon_g_a_b_c` and that factor's four other rates, in the same order. */
  lemma TfParameterNamesMeetAcrossGenes(a: string, b: string, c: string,
                                        kfKrKcat: RateTable, kDeg: real, tfs: TfArg, onOff: Option<RateTable>, i: nat,
                                        kfKrKcat': RateTable, kDeg': real, tfs': TfArg, onOff': Option<RateTable>, j: nat)
    requires RatesReady(kfKrKcat, tfs, onOff) && i < |TfEntries(tfs)| && TfEntries(tfs)[i].monomer == b + "_" + c
    requires RatesReady(kfKrKcat', tfs', onOff') && j < |TfEntries(tfs')| && TfEntries(tfs')[j].monomer == c
    ensures a != a + "_" + b
    ensures var ps := TranscriptionParameters(a, kfKrKcat, kDeg, tfs, onOff);
            var qs := TranscriptionParameters(a + "_" + b, kfKrKcat', kDeg', tfs', onOff');
            |ps| == 4 + 5 * |TfEntries(tfs)| && |qs| == 4 + 5 * |TfEntries(tfs')| &&
            ParameterNames(ps[4 + 5 * i..9 + 5 * i]) == ParameterNames(qs[4 + 5 * j..9 + 5 * j])
  {
    assert |a| < |a + "_" + b|;
    TfPositions(a, kfKrKcat, kDeg, tfs, onOff, i);
    TfPositions(a + "_" + b, kfKrKcat', kDeg', tfs', onOff', j);
    TfParameterNamesMeet(a, b, c, OnOffRows(tfs, onOff)[i], Rows(kfKrKcat)[i + 1], OnOffRows(tfs', onOff')[j], Rows(kfKrKcat')[j + 1]);
  }

  /** The same two calls both name rules `g_a_b_c_binds_RNAp` and
      `g_a_b_c_RNAp_transcribes`. */
  lemma TfRuleNamesMeetAcrossGenes(a: string, b: string, c: string,
                                   kfKrKcat: RateTable, kDeg: real, tfs: TfArg, onOff: Option<RateTable>, i: nat,
                                   kfKrKcat': RateTable, kDeg': real, tfs': TfArg, onOff': Option<RateTable>, j: nat)
    requires RatesReady(kfKrKcat, tfs, onOff) && i < |TfEntries(tfs)| && TfEntries(tfs)[i].monomer == b + "_" + c
    requires RatesReady(kfKrKcat', tfs', onOff') && j < |TfEntries(tfs')| && TfEntries(tfs')[j].monomer == c
    ensures var rs := TranscriptionRules(a, kfKrKcat, kDeg, tfs, onOff);
            var ss := TranscriptionRules(a + "_" + b, kfKrKcat', kDeg', tfs', onOff');
            |rs| == 3 + 3 * |TfEntries(tfs)| && |ss| == 3 + 3 * |TfEntries(tfs')| &&
            rs[4 + 3 * i].name == ss[4 + 3 * j].name && rs[5 + 3 * i].name == ss[5 + 3 * j].name
  {
    TfRuleNameAt(a, kfKrKcat, kDeg, tfs, onOff, i, 1);
    TfRuleNameAt(a, kfKrKcat, kDeg, tfs, onOff, i, 2);
    TfRuleNameAt(a + "_" + b, kfKrKcat', kDeg', tfs', onOff', j, 1);
    TfRuleNameAt(a + "_" + b, kfKrKcat', kDeg', tfs', onOff', j, 2);
    TfRuleSuffixesMeet(a, b, c);
  }

  /** The names a call without factors creates, in creation order. */
  function BasalParameterNames(x: string): seq<string> {
    ["kf_g_" + x + "_RNAp", "kr_g_" + x + "_RNAp", "kcat_g_" + x + "_RNAp", "kdeg_mRNA_" + x]
  }

  function BasalRuleNames(x: string): seq<string> {
    ["g_" + x + "_binds_RNAp", "g_" + x + "_RNAp_transcribes", "mRNA_" + x + "_degrades"]
  }

  /** Basal names for different genes never meet: the second letter tells the
      rate names apart, the first and last letters the rule names, and names
      of one kind differ by the gene. */
  lemma BasalNamesDiffer(x: string, y: string)
    requires x != y
    ensures forall i, j | 0 <= i < 4 && 0 <= j < 4 :: BasalParameterNames(x)[i] != BasalParameterNames(y)[j]
    ensures forall i, j | 0 <= i < 3 && 0 <= j < 3 :: BasalRuleNames(x)[i] != BasalRuleNames(y)[j]
  {
    var ps, qs := BasalParameterNames(x), BasalParameterNames(y);
    forall i, j | 0 <= i < 4 && 0 <= j < 4 ensures ps[i] != qs[j] {
      if ps[i] == qs[j] {
        assert ps[i][1] == qs[j][1];
        assert i == j;
        if i < 3 {
          Text.CancelAffixes(["kf_g_", "kr_g_", "kcat_g_"][i], x, y, "_RNAp");
        } else {
          Text.CancelLeft("kdeg_mRNA_", x, y);
        }
      }
    }
    var rs, ss := BasalRuleNames(x), BasalRuleNames(y);
    forall i, j | 0 <= i < 3 && 0 <= j < 3 ensures rs[i] != ss[j] {
      if rs[i] == ss[j] {
        assert rs[i][0] == ss[j][0] && rs[i][|rs[i]| - 1] == ss[j][|ss[j]| - 1];
        assert i == j;
        Text.CancelAffixes(["g_", "g_", "mRNA_"][i], x, y, ["_binds_RNAp", "_RNAp_transcribes", "_degrades"][i]);
      }
    }
  }

  /** Two calls without transcription factors, for different genes, create no
      parameter name and no rule name in common. */
  lemma BasalCallsApart(x: string, kfKrKcat: RateTable, kDeg: real, tfs: TfArg, onOff: Option<RateTable>,
                        y: string, kfKrKcat': RateTable, kDeg': real, tfs': TfArg, onOff': Option<RateTable>)
    requires RatesReady(kfKrKcat, tfs, onOff) && |TfEntries(tfs)| == 0
    requires RatesReady(kfKrKcat', tfs', onOff') && |TfEntries(tfs')| == 0
    requires x != y
    ensures var ps := TranscriptionParameters(x, kfKrKcat, kDeg, tfs, onOff);
            var qs := TranscriptionParameters(y, kfKrKcat', kDeg', tfs', onOff');
            forall i, j | 0 <= i < |ps| && 0 <= j < |qs| :: ps[i].name != qs[j].name
    ensures var rs := TranscriptionRules(x, kfKrKcat, kDeg, tfs, onOff);
            var ss := TranscriptionRules(y, kfKrKcat', kDeg', tfs', onOff');
            forall i, j | 0 <= i < |rs| && 0 <= j < |ss| :: rs[i].name != ss[j].name
  {
    BasalNamed(x, kfKrKcat, kDeg, tfs, onOff);
    BasalNamed(y, kfKrKcat', kDeg', tfs', onOff');
    BasalNamesDiffer(x, y);
  }

  lemma BasalNamed(x: string, kfKrKcat: RateTable, kDeg: real, tfs: TfArg, onOff: Option<RateTable>)
    requires RatesReady(kfKrKcat, tfs, onOff) && |TfEntries(tfs)| == 0
    ensures var ps := TranscriptionParameters(x, kfKrKcat, kDeg, tfs, onOff);
            |ps| == 4 && forall i | 0 <= i < 4 :: ps[i].name == BasalParameterNames(x)[i]
    ensures var rs := TranscriptionRules(x, kfKrKcat, kDeg, tfs, onOff);
            |rs| == 3 && forall i | 0 <= i < 3 :: rs[i].name == BasalRuleNames(x)[i]
  {
    TranscriptionCounts(x, kfKrKcat, kDeg, tfs, onOff);
    BasalOutput(x, kfKrKcat, kDeg, tfs, onOff);
  }

  /** A factor's five rate names depend only on the text `<gene>_<factor>`. */
  lemma TfParameterNamesMeet(a: string, b: string, c: string,
                             on: seq<real>, row: seq<real>, on': seq<real>, row': seq<real>)
    requires |on| >= 2 && |row| >= 3 && |on'| >= 2 && |row'| >= 3
    ensures ParameterNames(TfParameters(GeneName(a), b + "_" + c, on, row)) ==
            ParameterNames(TfParameters(GeneName(a + "_" + b), c, on', row'))
  {
    var g, t, h, u := GeneName(a), b + "_" + c, GeneName(a + "_" + b), c;
    assert g + "_" + t == h + "_" + u;
    var ns, ms := ParameterNames(TfParameters(g, t, on, row)), ParameterNames(TfParameters(h, u, on', row'));
    forall k | 0 <= k < 5 ensures ns[k] == ms[k] {
      var role := TfRole(k);
      assert role + "_" + (g + "_" + t) == role + "_" + (h + "_" + u);
      assert role + "_" + (g + "_" + t) + "_RNAp" == role + "_" + (h + "_" + u) + "_RNAp";
      assert k < 2 ==> ns[k] == role + "_" + (g + "_" + t) && ms[k] == role + "_" + (h + "_" + u);
      assert k >= 2 ==> ns[k] == role + "_" + (g + "_" + t) + "_RNAp" && ms[k] == role + "_" + (h + "_" + u) + "_RNAp";
    }
  }

  /** So do its RNAp-binding and transcription rule names. */
  lemma TfRuleSuffixesMeet(a: string, b: string, c: string)
    ensures GeneName(a) + Suffix(TfKind(b + "_" + c, 1)) == GeneName(a + "_" + b) + Suffix(TfKind(c, 1))
    ensures GeneName(a) + Suffix(TfKind(b + "_" + c, 2)) == GeneName(a + "_" + b) + Suffix(TfKind(c, 2))
  {
    var g, t, h, u := GeneName(a), b + "_" + c, GeneName(a + "_" + b), c;
    assert g + "_" + t == h + "_" + u;
    assert g + ("_" + t + "_binds_RNAp") == g + "_" + t + "_binds_RNAp";
    assert h + ("_" + u + "_binds_RNAp") == h + "_" + u + "_binds_RNAp";
    assert g + ("_" + t + "_RNAp_transcribes") == g + "_" + t + "_RNAp_transcribes";
    assert h + ("_" + u + "_RNAp_transcribes") == h + "_" + u + "_RNAp_transcribes";
  }
}
