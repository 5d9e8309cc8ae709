/** The statistics generator run from the console. It computes each section of the
    statistics on its own, so that one failing section is recorded as not generated
    without stopping the others, and then replaces the whole stats collection with a
    single document. Its lpas-per-user section is a histogram of the per-user LPA counts
    of a map-reduce, ordered by key, descending; its who-are-you section uses the same
    month windows and ObjectId bounds as the statistics resource. */
module SystemStats {
  import opened Common
  import opened StatsCommon

  // ---------------------------------------------------------------------------
  // Lpas per user

  /** A result of the map-reduce that counts LPAs by user: `value` is the count as
      `(int)` reads it. */
  datatype MapReduceRow = MapReduceRow(user: string, value: int)

  /** The `array_reduce` of `getLpasPerUser`, over the results in order: the carry
      gains one under the result's count. */
  function ReduceCounts(results: seq<MapReduceRow>): map<int, int>
  {
    if results == [] then map[]
    else
      var carry := ReduceCounts(results[..|results| - 1]);
      var count := results[|results| - 1].value;
      if count !in carry then carry[count := 1] else carry[count := carry[count] + 1]
  }

  /** The reduction counts occurrences: an LPA count is a key exactly when some result
      has it, and its value is how many results have it. */
  lemma {:induction false} ReduceCountsOccurrences(results: seq<MapReduceRow>)
    ensures forall k :: k in ReduceCounts(results) <==> k in multiset(Values(results))
    ensures forall k :: k in ReduceCounts(results) ==> ReduceCounts(results)[k] == multiset(Values(results))[k]
  {
    if results != [] {
      var init := results[..|results| - 1];
      ReduceCountsOccurrences(init);
      assert Values(results) == Values(init) + [results[|results| - 1].value];
    }
  }

  /** The LPA counts of the results, in order. */
  function Values(results: seq<MapReduceRow>): (r: seq<int>)
    ensures |r| == |results|
    ensures forall i :: 0 <= i < |results| ==> r[i] == results[i].value
  {
    if results == [] then [] else Values(results[..|results| - 1]) + [results[|results| - 1].value]
  }

  /** Every result is counted once: the histogram's values add up to the number of
      results. */
  lemma {:induction false} ReducedTotal(results: seq<MapReduceRow>)
    ensures Total(ReduceCounts(results)) == |results|
  {
    if results != [] {
      var init := results[..|results| - 1];
      ReducedTotal(init);
      var carry := ReduceCounts(init);
      var count := results[|results| - 1].value;
      TotalUpdate(carry, count, if count in carry then carry[count] + 1 else 1);
    }
  }

  /** `getLpasPerUser`'s `all`: the histogram, `krsort`ed. */
  method GetLpasPerUser(results: seq<MapReduceRow>) returns (all: seq<(int, int)>)
    ensures Descending(all)
    ensures AsMap(all) == ReduceCounts(results)
    ensures forall k :: k in AsMap(all) <==> k in multiset(Values(results))
    ensures forall k :: k in AsMap(all) ==> AsMap(all)[k] == multiset(Values(results))[k]
    ensures Total(AsMap(all)) == |results|
  {
    var lpasPerUser := ReduceCounts(results);
    all := KrSort(lpasPerUser);
    ReduceCountsOccurrences(results);
    ReducedTotal(results);
  }

  // ---------------------------------------------------------------------------
  // generate

  /** The sections of the statistics document, in the order they are computed. */
  const SECTIONS: seq<string> := ["lpas", "lpasPerUser", "who", "correspondence", "preferencesInstructions", "options"]

  /** What a section that threw is recorded as. */
  const NOT_GENERATED: Value := Assoc(map["generated" := Bool(false)])

  /** A section's entry: what it computed, or the not-generated marker if it threw. */
  function SectionEntry(outcome: Option<Value>): (v: Value)
    ensures outcome.Some? ==> v == outcome.value
    ensures outcome.None? ==> v == NOT_GENERATED
  {
    match outcome
    case Some(value) => value
    case None => NOT_GENERATED
  }

  /** The statistics document `generate` stores. */
  function StatsDocument(outcome: string -> Option<Value>, generated: string, elapsedMs: int): Doc
  {
    map[
      "lpas" := SectionEntry(outcome("lpas")),
      "lpasPerUser" := SectionEntry(outcome("lpasPerUser")),
      "who" := SectionEntry(outcome("who")),
      "correspondence" := SectionEntry(outcome("correspondence")),
      "preferencesInstructions" := SectionEntry(outcome("preferencesInstructions")),
      "options" := SectionEntry(outcome("options")),
      "generated" := Text(generated),
      "generationTimeInMs" := Int(elapsedMs)]
  }

  /** The document has exactly the six sections and the two generation fields. */
  lemma StatsDocumentFields(outcome: string -> Option<Value>, generated: string, elapsedMs: int)
    ensures StatsDocument(outcome, generated, elapsedMs).Keys == (set k | k in SECTIONS) + {"generated", "generationTimeInMs"}
    ensures StatsDocument(outcome, generated, elapsedMs)["generated"] == Text(generated)
    ensures StatsDocument(outcome, generated, elapsedMs)["generationTimeInMs"] == Int(elapsedMs)
  {
    assert (set k | k in SECTIONS) == {"lpas", "lpasPerUser", "who", "correspondence", "preferencesInstructions", "options"};
  }

  /** Each section's entry depends on that section's outcome alone: a section that throws
      is marked not generated and the others keep what they computed. */
  lemma SectionsIsolated(outcome: string -> Option<Value>, generated: string, elapsedMs: int)
    ensures forall k :: k in SECTIONS ==> StatsDocument(outcome, generated, elapsedMs)[k] == SectionEntry(outcome(k))
  {
    var d := StatsDocument(outcome, generated, elapsedMs);
    forall k | k in SECTIONS
      ensures d[k] == SectionEntry(outcome(k))
    {
      assert k in {"lpas", "lpasPerUser", "who", "correspondence", "preferencesInstructions", "options"};
    }
  }

  class Stats {
    /** The documents of the stats-lpa collection. */
    var statsLpa: seq<Doc>

    constructor (statsLpa: seq<Doc>)
      ensures this.statsLpa == statsLpa
    {
      this.statsLpa := statsLpa;
    }

    /** `generate()`. `outcome(k)` is what computing section `k` yields: its value, or
        `None` when it throws. `generated` is the formatted date and `elapsedMs` the
        rounded generation time. The collection is emptied and then holds the one new
        document. */
    method Generate(outcome: string -> Option<Value>, generated: string, elapsedMs: int) returns (ok: bool)
      modifies this
      ensures ok
      ensures statsLpa == [StatsDocument(outcome, generated, elapsedMs)]
    {
      var stats: Doc := map[];
      stats := stats["lpas" := SectionEntry(outcome("lpas"))];
      stats := stats["lpasPerUser" := SectionEntry(outcome("lpasPerUser"))];
      stats := stats["who" := SectionEntry(outcome("who"))];
      stats := stats["correspondence" := SectionEntry(outcome("correspondence"))];
      stats := stats["preferencesInstructions" := SectionEntry(outcome("preferencesInstructions"))];
      stats := stats["options" := SectionEntry(outcome("options"))];
      stats := stats["generated" := Text(generated)];
      stats := stats["generationTimeInMs" := Int(elapsedMs)];
      statsLpa := [];
      statsLpa := statsLpa + [stats];
      ok := true;
    }
  }
}
