/** The merge of llmfit's model recommendations into the `provider.vllm.models`
    table of `opencode.json` (`update_opencode_json`). The file itself is an
    input value (absent or a parsed document) and the document to write back
    is part of the result. */
module OpencodeConfig {
  import opened Wrappers
  import Text

  /** Context window assumed when a recommendation gives none. */
  const DefaultContextLength: int := 32768
  /** Upper bound on the `maxTokens` of an added entry. */
  const MaxTokensCap: int := 8192
  /** Quantisation label shown when a recommendation gives none. */
  const DefaultQuant: string := "auto"

  /** One value of the `models` table: `{name, contextWindow, maxTokens}`. */
  datatype Entry = Entry(name: string, contextWindow: int, maxTokens: int)

  /** One element of llmfit's `models` list. */
  datatype Recommendation = Recommendation(name: string, contextLength: Option<int>, bestQuant: Option<string>)

  /** llmfit's parsed output: an object whose `models` key may be missing. */
  datatype Report = Report(models: Option<seq<Recommendation>>)

  datatype Vllm = Vllm(models: Option<map<string, Entry>>)
  datatype Provider = Provider(vllm: Option<Vllm>)
  /** The parsed `opencode.json` document, reduced to the path the merge reads. */
  datatype Config = Config(provider: Option<Provider>)

  /** The two ways the merge stops the program before writing anything. */
  datatype ConfigError = ConfigNotFound | MissingProviderVllm

  /** What a successful merge produces: the document written back, the best
      model handed on to the script patch, and the number of entries added. */
  datatype MergeOutcome = MergeOutcome(config: Config, bestModel: Option<string>, added: nat)

  /** `recommendations.get("models", [])`. */
  function Listed(report: Report): seq<Recommendation> {
    report.models.GetOr([])
  }

  /** `model.get("context_length", 32768)`. */
  function ContextWindow(rec: Recommendation): int {
    rec.contextLength.GetOr(DefaultContextLength)
  }

  /** `model.get("best_quant", "auto")`. */
  function Quant(rec: Recommendation): string {
    rec.bestQuant.GetOr(DefaultQuant)
  }

  /** `min(8192, contextWindow // 4)`. Dafny's `/` by the positive divisor 4
      rounds down like Python's `//`, negative context lengths included.
      The result is the largest value not above the cap whose fourfold fits
      in the context window. */
  function MaxTokens(contextWindow: int): (t: int)
    ensures t <= MaxTokensCap
    ensures 4 * t <= contextWindow
    ensures t == MaxTokensCap || contextWindow < 4 * (t + 1)
  {
    if contextWindow / 4 < MaxTokensCap then contextWindow / 4 else MaxTokensCap
  }

  /** `f"{model_id.split('/')[-1]} (vLLM, {quant})"`. */
  function DisplayName(id: string, quant: string): string {
    Text.LastSegment(id) + " (vLLM, " + quant + ")"
  }

  /** The entry the merge inserts for a recommendation it has not seen before:
      the context window defaults to 32768, and `maxTokens` never exceeds 8192
      nor a quarter of the context window. */
  function NewEntry(rec: Recommendation): (e: Entry)
    ensures rec.contextLength.Some? ==> e.contextWindow == rec.contextLength.value
    ensures rec.contextLength.None? ==> e.contextWindow == DefaultContextLength && e.maxTokens == MaxTokensCap
    ensures e.maxTokens <= MaxTokensCap && 4 * e.maxTokens <= e.contextWindow
    ensures e.maxTokens == MaxTokensCap || e.contextWindow < 4 * (e.maxTokens + 1)
  {
    var cw := ContextWindow(rec);
    Entry(DisplayName(rec.name, Quant(rec)), cw, MaxTokens(cw))
  }

  /** A display name is the identifier's part after its last `/` (all of it
      when there is none), then ` (vLLM, `, the quantisation label, and `)`. */
  lemma DisplayNameShape(id: string, quant: string)
    ensures var name := DisplayName(id, quant);
      var tail := " (vLLM, " + quant + ")";
      && |tail| <= |name|
      && name[|name| - |tail|..] == tail
      && var seg := name[..|name| - |tail|];
        && seg == id[|id| - |seg|..]
        && '/' !in seg
        && (seg == id || id[|id| - |seg| - 1] == '/')
  {
    var name := DisplayName(id, quant);
    var tail := " (vLLM, " + quant + ")";
    var seg := Text.LastSegment(id);
    Regroup(seg, " (vLLM, ", quant, ")");
    assert name == seg + tail;
    assert name[|seg|..] == tail;
    assert name[..|seg|] == seg;
  }

  /** The display name's four parts, regrouped as the segment and its tail. */
  lemma Regroup(a: string, b: string, c: string, d: string)
    ensures a + b + c + d == a + (b + c + d)
  {
    assert a + b + c + d == a + (b + c) + d;
  }

  /** The display name of an added entry has that shape, built from the
      recommendation's identifier and its quantisation label or `auto`. */
  lemma NewEntryName(rec: Recommendation)
    ensures var name := NewEntry(rec).name;
      var tail := " (vLLM, " + Quant(rec) + ")";
      && |tail| <= |name|
      && name[|name| - |tail|..] == tail
      && var seg := name[..|name| - |tail|];
        && seg == rec.name[|rec.name| - |seg|..]
        && '/' !in seg
        && (seg == rec.name || rec.name[|rec.name| - |seg| - 1] == '/')
  {
    DisplayNameShape(rec.name, Quant(rec));
  }

  /** Worked cases of the derivation: a namespaced identifier `<ns>/<base>`
      with no context length and no quantisation gets `<base> (vLLM, auto)`,
      32768 and 8192; a context length of 16000 gives `maxTokens` 4000. */
  lemma DerivationExamples(ns: string, base: string)
    requires '/' !in base
    ensures NewEntry(Recommendation(ns + "/" + base, None, None)) == Entry(base + " (vLLM, auto)", 32768, 8192)
    ensures NewEntry(Recommendation(ns + "/" + base, Some(16000), None)).maxTokens == 4000
  {
    Text.LastSegmentAfterSlash(ns, base);
  }

  /** The identifiers a list of recommendations names. */
  function Names(recs: seq<Recommendation>): (ids: set<string>)
    ensures forall j :: 0 <= j < |recs| ==> recs[j].name in ids
  {
    if recs == [] then {} else {recs[0].name} + Names(recs[1..])
  }

  /** Conversely, every identifier in `Names(recs)` is the name of some element. */
  lemma {:induction false} NamesOnlyListed(recs: seq<Recommendation>, id: string)
    requires id in Names(recs)
    ensures exists j :: 0 <= j < |recs| && recs[j].name == id
    decreases |recs|
  {
    if recs[0].name != id {
      NamesOnlyListed(recs[1..], id);
      var k :| 0 <= k < |recs[1..]| && recs[1..][k].name == id;
      assert recs[k + 1].name == id;
    }
  }

  /** `j` is the position of the first recommendation named `id`. */
  ghost predicate IsFirstWith(recs: seq<Recommendation>, id: string, j: int) {
    0 <= j < |recs| && recs[j].name == id && forall i :: 0 <= i < j ==> recs[i].name != id
  }

  /** The position of the first recommendation named `id`: every named
      identifier has one. */
  function FirstWith(recs: seq<Recommendation>, id: string): (j: nat)
    requires id in Names(recs)
    ensures IsFirstWith(recs, id, j)
  {
    if recs[0].name == id then 0 else 1 + FirstWith(recs[1..], id)
  }

  /** One step of the merge loop: insert the entry for `rec` unless its
      identifier is already a key. */
  function Insert(models: map<string, Entry>, rec: Recommendation): map<string, Entry> {
    if rec.name in models then models else models[rec.name := NewEntry(rec)]
  }

  /** The `models` table after the merge loop has seen `recs`. Its keys are
      the old keys together with every recommended identifier, and every old
      key keeps its entry. */
  function MergedModels(models: map<string, Entry>, recs: seq<Recommendation>): (m: map<string, Entry>)
    ensures m.Keys == models.Keys + Names(recs)
    ensures forall id :: id in models ==> m[id] == models[id]
    decreases |recs|
  {
    if recs == [] then models else MergedModels(Insert(models, recs[0]), recs[1..])
  }

  /** A key the merge adds holds the entry built from the FIRST recommendation
      with that identifier; later duplicates are ignored. */
  lemma {:induction false} MergedModelsNewEntry(models: map<string, Entry>, recs: seq<Recommendation>, id: string)
    requires id in Names(recs) && id !in models
    ensures MergedModels(models, recs)[id] == NewEntry(recs[FirstWith(recs, id)])
    decreases |recs|
  {
    var inserted := Insert(models, recs[0]);
    var merged := MergedModels(inserted, recs[1..]);
    assert MergedModels(models, recs)[id] == merged[id];
    if recs[0].name == id {
      assert FirstWith(recs, id) == 0;
      assert merged[id] == inserted[id] == NewEntry(recs[0]);
    } else {
      var j := FirstWith(recs[1..], id);
      assert FirstWith(recs, id) == 1 + j;
      MergedModelsNewEntry(inserted, recs[1..], id);
      assert merged[id] == NewEntry(recs[1..][j]);
      assert recs[1..][j] == recs[1 + j];
    }
  }

  /** When every recommended identifier is already a key, the merge changes
      nothing: a consequence of the key set and preservation that
      `MergedModels` guarantees. */
  lemma MergedModelsCovered(models: map<string, Entry>, recs: seq<Recommendation>)
    requires Names(recs) <= models.Keys
    ensures MergedModels(models, recs) == models
  {
  }

  /** One more loop iteration: merging a list extended by `rec` is merging the
      list and then inserting `rec`. */
  lemma {:induction false} MergedModelsSnoc(models: map<string, Entry>, recs: seq<Recommendation>, rec: Recommendation)
    ensures MergedModels(models, recs + [rec]) == Insert(MergedModels(models, recs), rec)
    decreases |recs|
  {
    if recs != [] {
      assert (recs + [rec])[1..] == recs[1..] + [rec];
      MergedModelsSnoc(Insert(models, recs[0]), recs[1..], rec);
    }
  }

  /** Appending a recommendation adds its identifier to the named set. */
  lemma {:induction false} NamesSnoc(recs: seq<Recommendation>, rec: Recommendation)
    ensures Names(recs + [rec]) == Names(recs) + {rec.name}
    decreases |recs|
  {
    if recs != [] {
      assert (recs + [rec])[1..] == recs[1..] + [rec];
      NamesSnoc(recs[1..], rec);
    }
  }

  /** Adding one element to a set adds one to what it has outside `keys`,
      unless the element was already in the set or in `keys`. */
  lemma DiffAddOne(ids: set<string>, keys: set<string>, id: string)
    ensures |(ids + {id}) - keys| == if id in ids + keys then |ids - keys| else |ids - keys| + 1
  {
    if id in ids + keys {
      assert (ids + {id}) - keys == ids - keys;
    } else {
      assert (ids + {id}) - keys == (ids - keys) + {id};
      assert (ids - keys) * {id} == {};
    }
  }

  /** The number of new identifiers grows by one exactly when the loop inserts. */
  lemma NewNamesSnoc(models: map<string, Entry>, recs: seq<Recommendation>, rec: Recommendation)
    ensures var m := MergedModels(models, recs);
      |Names(recs + [rec]) - models.Keys| ==
        if rec.name in m then |Names(recs) - models.Keys| else |Names(recs) - models.Keys| + 1
  {
    NamesSnoc(recs, rec);
    DiffAddOne(Names(recs), models.Keys, rec.name);
  }

  /** The models table grows by exactly the number of distinct recommended
      identifiers that were not already keys: a repeated identifier counts once. */
  lemma AddedCount(models: map<string, Entry>, recs: seq<Recommendation>)
    ensures |MergedModels(models, recs)| == |models| + |Names(recs) - models.Keys|
  {
    var m := MergedModels(models, recs);
    var unseen := Names(recs) - models.Keys;
    assert m.Keys == models.Keys + unseen;
    assert models.Keys * unseen == {};
  }

  /** Merging the same recommendations again adds nothing and changes nothing. */
  lemma MergedModelsIdempotent(models: map<string, Entry>, recs: seq<Recommendation>)
    ensures MergedModels(MergedModels(models, recs), recs) == MergedModels(models, recs)
  {
    MergedModelsCovered(MergedModels(models, recs), recs);
  }

  /** The `best_model` accumulator after the loop has seen `recs`: it is
      replaced by the current name while it is still `None` or empty. */
  function BestModel(recs: seq<Recommendation>): (best: Option<string>)
    ensures best.None? <==> recs == []
    decreases |recs|
  {
    if recs == [] then None
    else
      var best := BestModel(recs[..|recs| - 1]);
      if best.None? || best == Some("") then Some(recs[|recs| - 1].name) else best
  }

  /** The models table a document holds once the missing table has been created. */
  function ModelsOf(config: Config): map<string, Entry>
    requires config.provider.Some? && config.provider.value.vllm.Some?
  {
    config.provider.value.vllm.value.models.GetOr(map[])
  }

  /** The document with its models table set to `models`. */
  function WithModels(config: Config, models: map<string, Entry>): (c: Config)
    requires config.provider.Some? && config.provider.value.vllm.Some?
    ensures c.provider.Some? && c.provider.value.vllm.Some?
    ensures c.provider.value.vllm.value.models == Some(models)
  {
    Config(Some(Provider(Some(Vllm(Some(models))))))
  }

  /** The whole merge as one value: an error when the file is absent or lacks
      `provider.vllm`, otherwise the merged document, the best model and the
      number of identifiers added. */
  function Merge(file: Option<Config>, report: Report): (r: Result<MergeOutcome, ConfigError>)
    ensures file.None? ==> r == Failure(ConfigNotFound)
    ensures r.Failure? <==> file.None? || file.value.provider.None? || file.value.provider.value.vllm.None?
    ensures r.Success? ==> r.value.config.provider.Some? && r.value.config.provider.value.vllm.Some?
    ensures file.Some? && r.Failure? ==> r == Failure(MissingProviderVllm)
    ensures r.Success? ==> r.value.config.provider.value.vllm.value.models == Some(MergedModels(ModelsOf(file.value), Listed(report)))
    ensures r.Success? ==> r.value.bestModel == BestModel(Listed(report))
    ensures r.Success? ==>
      var before := ModelsOf(file.value);
      var after := ModelsOf(r.value.config);
      && after.Keys == before.Keys + Names(Listed(report))
      && (forall id :: id in before ==> after[id] == before[id])
      && r.value.added == |after| - |before|
  {
    match file
    case None => Failure(ConfigNotFound)
    case Some(config) =>
      if config.provider.None? || config.provider.value.vllm.None? then Failure(MissingProviderVllm)
      else
        var models := ModelsOf(config);
        var merged := MergedModels(models, Listed(report));
        AddedCount(models, Listed(report));
        Success(MergeOutcome(WithModels(config, merged), BestModel(Listed(report)), |Names(Listed(report)) - models.Keys|))
  }

  /** Running the merge a second time on the document it wrote leaves the
      document as it was, reports no additions and names the same best model. */
  lemma MergeIdempotent(file: Option<Config>, report: Report)
    requires Merge(file, report).Success?
    ensures var o := Merge(file, report).value;
      Merge(Some(o.config), report) == Success(MergeOutcome(o.config, o.bestModel, 0))
  {
    var o := Merge(file, report).value;
    var recs := Listed(report);
    MergedModelsIdempotent(ModelsOf(file.value), recs);
  }

  /** The best model is the first non-empty recommended name. */
  lemma {:induction false} BestModelIsFirstNonEmpty(recs: seq<Recommendation>, j: int)
    requires 0 <= j < |recs| && recs[j].name != ""
    requires forall i :: 0 <= i < j ==> recs[i].name == ""
    ensures BestModel(recs) == Some(recs[j].name)
    decreases |recs|
  {
    var init := recs[..|recs| - 1];
    if j < |recs| - 1 {
      assert init[j] == recs[j];
      assert forall i :: 0 <= i < j ==> init[i] == recs[i];
      BestModelIsFirstNonEmpty(init, j);
    } else {
      assert forall i :: 0 <= i < |init| ==> init[i].name == "";
      BestModelAllEmpty(init);
    }
  }

  /** With no non-empty name the best model is the empty name, and it is
      absent only when there are no recommendations at all. */
  lemma {:induction false} BestModelAllEmpty(recs: seq<Recommendation>)
    requires forall i :: 0 <= i < |recs| ==> recs[i].name == ""
    ensures BestModel(recs) == if recs == [] then None else Some("")
    decreases |recs|
  {
    if recs != [] {
      var init := recs[..|recs| - 1];
      assert forall i :: 0 <= i < |init| ==> init[i] == recs[i];
      BestModelAllEmpty(init);
    }
  }

  /** One iteration of the merge loop on position `i`: the models table, the
      number of new identifiers and the best model after `recs[..i + 1]`
      follow from those after `recs[..i]`. */
  lemma MergeStep(models: map<string, Entry>, recs: seq<Recommendation>, i: int)
    requires 0 <= i < |recs|
    ensures var m := MergedModels(models, recs[..i]);
      && MergedModels(models, recs[..i + 1]) == Insert(m, recs[i])
      && |Names(recs[..i + 1]) - models.Keys| ==
        (if recs[i].name in m then 0 else 1) + |Names(recs[..i]) - models.Keys|
    ensures var best := BestModel(recs[..i]);
      BestModel(recs[..i + 1]) == if best.None? || best == Some("") then Some(recs[i].name) else best
  {
    assert recs[..i + 1] == recs[..i] + [recs[i]];
    assert recs[..i + 1][..i] == recs[..i];
    MergedModelsSnoc(models, recs[..i], recs[i]);
    NewNamesSnoc(models, recs[..i], recs[i]);
  }

  /** `update_opencode_json`: check the document, create the models table if
      absent, then walk the recommendations in order, inserting an entry for
      each identifier that is not yet a key and keeping the best-model and
      added-count accumulators. */
  method UpdateOpencodeJson(file: Option<Config>, report: Report) returns (r: Result<MergeOutcome, ConfigError>)
    ensures r == Merge(file, report)
  {
    if file.None? {
      return Failure(ConfigNotFound);
    }
    var config := file.value;
    if config.provider.None? || config.provider.value.vllm.None? {
      return Failure(MissingProviderVllm);
    }
    var models := ModelsOf(config);
    ghost var models0 := models;
    var recs := Listed(report);
    var updatedCount: nat := 0;
    var best: Option<string> := None;
    var i := 0;
    while i < |recs|
      invariant 0 <= i <= |recs|
      invariant models == MergedModels(models0, recs[..i])
      invariant updatedCount == |Names(recs[..i]) - models0.Keys|
      invariant best == BestModel(recs[..i])
    {
      var rec := recs[i];
      if best.None? || best == Some("") {
        best := Some(rec.name);
      }
      var modelId := rec.name;
      var contextWindow := ContextWindow(rec);
      var maxTokens := MaxTokens(contextWindow);
      MergeStep(models0, recs, i);
      if modelId !in models {
        models := models[modelId := Entry(DisplayName(modelId, Quant(rec)), contextWindow, maxTokens)];
        updatedCount := updatedCount + 1;
      }
      i := i + 1;
    }
    assert recs[..i] == recs;
    r := Success(MergeOutcome(WithModels(config, models), best, updatedCount));
  }
}
