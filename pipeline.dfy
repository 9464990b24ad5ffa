/** The path through main from the parsed input file to the ranked records
    that the writers print: read, score, sort. */
module Pipeline {
  import opened Results
  import opened Vulnerabilities
  import opened RecordBuilder
  import opened Scoring
  import opened Dispatcher
  import opened Ranker

  /** main between reading the file and writing the outputs, with the file
      already split into csv records, the weights already built from the
      flags and the clock read once as `now`. A file without a header is the
      error main stops on; otherwise the result is the scored records of every
      row readCSV keeps, highest score first. */
  method Prioritize(table: seq<CsvRecord>, weights: Weights, now: real)
    returns (r: Result<seq<Vulnerability>, ReadError>, log: seq<SkipReason>)
    ensures table == [] <==> r.Err?
    ensures r.Err? ==> r.error == MissingHeader
    ensures table != [] ==>
              var kept := Records(HeaderIndex(table[0]), |table[0]|, table[1..]);
              && r.Ok?
              && SortedByScore(r.value)
              && multiset(r.value) == multiset(ScoreAll(kept, weights, now))
              && log == Skips(HeaderIndex(table[0]), |table[0]|, table[1..])
  {
    var read;
    read, log := ReadCSV(table);
    if read.Err? {
      return Err(read.error), log;
    }
    var processed := ProcessVulnerabilities(read.value, weights, now);
    var ranked := new Vulnerability[|processed|](i requires 0 <= i < |processed| => processed[i]);
    assert ranked[..] == processed;
    SortByPriority(ranked);
    r := Ok(ranked[..]);
  }
}
