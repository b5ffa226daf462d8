/** The stages several puzzles run over their input: `lines()`, then `trim()`
    on every line, then a value per line. */
module LinePipeline {
  import opened Wrappers
  import opened Text
  import opened Seqs

  /** The trimmed lines of a text, line by line: the first line trimmed, then
      the trimmed lines of the rest. */
  lemma TrimmedLinesCons(first: string, rest: string)
    requires '\n' !in first
    ensures Map(Lines(first + "\n" + rest), Trim) == [Trim(StripCarriageReturn(first))] + Map(Lines(rest), Trim)
  {
    LinesCons(first, rest);
    MapCons(StripCarriageReturn(first), Lines(rest), Trim);
  }

  /** A sum over the trimmed lines of a text goes line by line: the value of
      the first line trimmed, then the sum over the rest; it fails when
      either fails. */
  lemma SumOfTrimmedLinesCons(first: string, rest: string, f: string -> Option<int>)
    requires '\n' !in first
    ensures SumAll(Map(Lines(first + "\n" + rest), Trim), f) ==
      var (v, sum) := (f(Trim(StripCarriageReturn(first))), SumAll(Map(Lines(rest), Trim), f));
      if v.Some? && sum.Some? then Some(v.value + sum.value) else None
  {
    TrimmedLinesCons(first, rest);
    SumAllCons(Trim(StripCarriageReturn(first)), Map(Lines(rest), Trim), f);
  }

  /** A sum over the lines of a text goes line by line: the value of the
      first line, then the sum over the rest; it fails when either fails. */
  lemma SumOfLinesCons(first: string, rest: string, f: string -> Option<int>)
    requires '\n' !in first
    ensures SumAll(Lines(first + "\n" + rest), f) ==
      var (v, sum) := (f(StripCarriageReturn(first)), SumAll(Lines(rest), f));
      if v.Some? && sum.Some? then Some(v.value + sum.value) else None
  {
    LinesCons(first, rest);
    SumAllCons(StripCarriageReturn(first), Lines(rest), f);
  }
}
